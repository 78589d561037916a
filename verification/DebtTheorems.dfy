/** Every run of releases keeps the debt registry consistent, and an id moves one way only. */
module DebtTheorems {
  import opened DebtRegistry
  import opened DebtRows
  import opened Decimals
  import opened Seqs
  import opened Texts

  // ---------------------------------------------------------------------------------------------
  // Counters

  ghost predicate OccursAt(l: Line, name: string, k: int) { 0 <= k <= |l| && StartsWith(l[k..], name) }

  ghost predicate Occurs(l: Line, name: string) { exists k :: OccursAt(l, name, k) }

  ghost predicate OccursOnce(l: Line, name: string) {
    forall i, j :: OccursAt(l, name, i) && OccursAt(l, name, j) ==> i == j
  }

  /** A line that names a counter names one, once, and is no table row. */
  ghost predicate NamesOnce(l: Line, a: string, b: string) {
    Occurs(l, a) || Occurs(l, b) ==>
      !StartsWith(l, "| ") && OccursOnce(l, a) && OccursOnce(l, b) && !(Occurs(l, a) && Occurs(l, b))
  }

  ghost predicate CountersApart(lines: seq<Line>) { forall l :: l in lines ==> NamesOnce(l, ACTIVE, ARCHIVED) }

  /** What the names of the counters have in common. */
  ghost predicate IsName(name: string) {
    |name| > 2 && name[0] == '-' && forall i :: 0 <= i < |name| ==> !IsAnyDigit(name[i])
  }

  lemma {:induction false} CounterNames()
    ensures IsName(ACTIVE) && IsName(ARCHIVED) && ACTIVE != ARCHIVED
  {
    assert ACTIVE[4] != ARCHIVED[4];
  }

  /** Changing a run of digits neither makes nor breaks an occurrence of a text without digits. */
  lemma {:induction false} OccurrenceMoves(x: string, d: string, e: string, y: string, name: string, k: int)
    requires IsName(name) && e != "" && AllAnyDigits(e)
    requires OccursAt(x + e + y, name, k)
    ensures || (k + |name| <= |x| && OccursAt(x + d + y, name, k))
            || (k >= |x| + |e| && OccursAt(x + d + y, name, k - |e| + |d|))
  {
    var l, m := x + e + y, x + d + y;
    assert forall i :: 0 <= i < |name| ==> l[k + i] == l[k..][..|name|][i] == name[i];
    var i := if k < |x| then |x| else k;
    assert i < |x| + |e| ==> l[i] == e[i - |x|];
    assert i < k + |name| ==> l[i] == l[k + (i - k)];
    if k + |name| <= |x| {
      assert m[k..][..|name|] == l[k..][..|name|];
    } else {
      var k' := k - |e| + |d|;
      assert m[k'..][..|name|] == l[k..][..|name|];
    }
  }

  lemma {:induction false} NoNameNoCounter(l: Line, name: string)
    ensures !Occurs(l, name) ==> CounterValue(l, name).None?
    ensures CounterFrom(l, name, 0).Some? ==> OccursAt(l, name, CounterFrom(l, name, 0).value)
  {
    if CounterFrom(l, name, 0).Some? {
      var p := CounterFrom(l, name, 0).value;
      assert OccursAt(l, name, p);
    }
  }

  /** The parts of a line around the digits of its first counter. */
  lemma {:induction false} CounterParts(l: Line, name: string, n: nat) returns (x: string, d: string, y: string)
    requires CounterValue(l, name).Some?
    ensures l == x + d + y && d != "" && AllAnyDigits(d) && StartsWith(y, ROWS)
    ensures |x| >= |name| && OccursAt(l, name, |x| - |name|)
    ensures SetOnLine(l, name, n) == x + Persian(Decimal(n)) + y
  {
    hide DigitsAt;
    var p := CounterFrom(l, name, 0).value;
    var k := DigitsAt(l, name, p);
    x, d, y := l[..p + |name|], l[p + |name|..p + |name| + k], l[p + |name| + k..];
    assert l == x + d + y;
  }

  /** A line with one occurrence of the name reads the digits behind it. */
  lemma {:induction false} ReadDigits(x: string, d: string, y: string, name: string)
    requires d != "" && AllAnyDigits(d) && StartsWith(y, ROWS)
    requires |x| >= |name| && OccursAt(x + d + y, name, |x| - |name|) && OccursOnce(x + d + y, name)
    ensures CounterValue(x + d + y, name) == Some(AnyValue(d))
  {
    var l := x + d + y;
    var p := |x| - |name|;
    DigitsRead(x, d, y, name);
    hide DigitsAt;
    CounterIs(l, name, 0, p);
    assert l[|x|..|x| + |d|] == d;
  }

  lemma {:induction false} DigitsRead(x: string, d: string, y: string, name: string)
    requires d != "" && AllAnyDigits(d) && StartsWith(y, ROWS)
    requires |x| >= |name| && OccursAt(x + d + y, name, |x| - |name|)
    ensures DigitsAt(x + d + y, name, |x| - |name|) == |d|
  {
    var l := x + d + y;
    forall k | |x| <= k < |x| + |d| ensures IsAnyDigit(l[k]) {
      assert l[k] == d[k - |x|];
    }
    assert l[|x| + |d|] == y[0] == ROWS[0] == ' ';
    RunIs(l, IsAnyDigit, |x|, |d|);
    assert l[|x| + |d|..] == y;
  }

  lemma {:induction false} CounterIs(l: Line, name: string, i: nat, p: nat)
    requires i <= p <= |l| && DigitsAt(l, name, p) > 0 && OccursOnce(l, name) && OccursAt(l, name, p)
    ensures CounterFrom(l, name, i) == Some(p)
    decreases p - i
  {
    if i < p {
      assert !OccursAt(l, name, i);
      CounterIs(l, name, i + 1, p);
    }
  }

  /** Setting a counter of a line that names it once: read back, the other counter absent as before, still no row. */
  lemma {:induction false} SetLine(l: Line, name: string, other: string, n: nat)
    requires IsName(name) && IsName(other) && NamesOnce(l, name, other) && CounterValue(l, name).Some?
    ensures CounterValue(SetOnLine(l, name, n), name) == Some(n)
    ensures NamesOnce(SetOnLine(l, name, n), name, other)
    ensures CounterValue(SetOnLine(l, name, n), other).None? && CounterValue(l, other).None?
    ensures !StartsWith(l, "| ") && !StartsWith(SetOnLine(l, name, n), "| ")
  {
    var x, d, y := CounterParts(l, name, n);
    AnyValueOfPersian(n);
    var e := Persian(Decimal(n));
    assert e != "" && AllAnyDigits(e);
    NoNameNoCounter(l, other);
    hide CounterValue, SetOnLine, Persian, AllAnyDigits, IsName;
    NamesAfter(x, d, e, y, name, other);
    ReadDigits(x, e, y, name);
    NoNameNoCounter(x + e + y, other);
  }

  lemma {:induction false} NamesAfter(x: string, d: string, e: string, y: string, name: string, other: string)
    requires IsName(name) && IsName(other) && e != "" && AllAnyDigits(e)
    requires |x| >= |name| && OccursAt(x + d + y, name, |x| - |name|) && NamesOnce(x + d + y, name, other)
    ensures OccursAt(x + e + y, name, |x| - |name|) && OccursOnce(x + e + y, name) && !Occurs(x + e + y, other)
    ensures !StartsWith(x + e + y, "| ") && !StartsWith(x + d + y, "| ") && !Occurs(x + d + y, other)
  {
    var l, r, p := x + d + y, x + e + y, |x| - |name|;
    assert Occurs(l, name);
    assert r[p..][..|name|] == l[p..][..|name|];
    assert x[p] == l[p..][..|name|][0] == name[0];
    assert p > 1 ==> r[..2] == l[..2];
    assert !StartsWith(r, "| ");
    hide StartsWith;
    forall k | OccursAt(r, name, k) ensures k == p {
      OccurrenceMoves(x, d, e, y, name, k);
    }
    forall k ensures !OccursAt(r, other, k) {
      if OccursAt(r, other, k) {
        OccurrenceMoves(x, d, e, y, other, k);
      }
    }
  }

  lemma {:induction false} NotTableRow(l: Line)
    requires !StartsWith(l, "| ")
    ensures DebtId(l) == None && l != EMPTY_ROW
  {
    TableRow(l);
  }

  lemma {:induction false} TableRow(l: Line)
    ensures IsRow(l) || l == EMPTY_ROW ==> StartsWith(l, "| ")
    ensures !IsRow(EMPTY_ROW)
  {
    assert StartsWith(l, "| TD-") ==> l[..2] == l[..5][..2];
    EmptyRowShape();
    assert EMPTY_ROW[..5][2] == EMPTY_ROW[2];
  }

  lemma {:induction false} EmptyRowShape()
    ensures StartsWith(EMPTY_ROW, "| ") && EMPTY_ROW[2] == '—'
  {
    assert EMPTY_ROW[0] == '|' && EMPTY_ROW[1] == ' ' && EMPTY_ROW[2] == '—';
    assert EMPTY_ROW[..2] == "| ";
  }

  lemma {:induction false} NamesOnceSym(l: Line)
    ensures NamesOnce(l, ACTIVE, ARCHIVED) <==> NamesOnce(l, ARCHIVED, ACTIVE)
  {
  }

  ghost predicate Apart(lines: seq<Line>, name: string, other: string) { forall l :: l in lines ==> NamesOnce(l, name, other) }

  /** Setting one counter of a file leaves the other one, the rows and the placeholder alone. */
  lemma {:induction false} SetCounterReads(lines: seq<Line>, name: string, other: string, n: nat)
    requires IsName(name) && IsName(other) && Apart(lines, name, other) && ReadCounter(lines, name).Some?
    ensures ReadCounter(SetCounter(lines, name, n), name) == Some(n)
    ensures ReadCounter(SetCounter(lines, name, n), other) == ReadCounter(lines, other)
    ensures Ids(SetCounter(lines, name, n)) == Ids(lines)
    ensures EMPTY_ROW in SetCounter(lines, name, n) <==> EMPTY_ROW in lines
    ensures Apart(SetCounter(lines, name, n), name, other)
  {
    hide CounterValue, SetOnLine, IsName, NamesOnce, DebtId;
    var l, rest := lines[0], lines[1..];
    assert lines == [l] + rest;
    if CounterValue(l, name).Some? {
      SetLine(l, name, other, n);
      var r := SetOnLine(l, name, n);
      NotTableRow(l);
      NotTableRow(r);
      assert ([r] + rest)[1..] == rest;
    } else {
      SetCounterReads(rest, name, other, n);
      var r := SetCounter(rest, name, n);
      assert ([l] + r)[1..] == r;
    }
  }

  lemma {:induction false} ReadConcat(a: seq<Line>, b: seq<Line>, name: string)
    ensures ReadCounter(a + b, name) == if ReadCounter(a, name).Some? then ReadCounter(a, name) else ReadCounter(b, name)
  {
    hide CounterValue;
    if a == [] {
      assert a + b == b;
    } else {
      assert (a + b)[1..] == a[1..] + b;
      ReadConcat(a[1..], b, name);
    }
  }

  lemma {:induction false} ReadNothing(rows: seq<Line>, name: string)
    requires forall l :: l in rows ==> CounterValue(l, name).None?
    ensures ReadCounter(rows, name).None?
  {
    hide CounterValue;
    if rows != [] {
      ReadNothing(rows[1..], name);
    }
  }

  lemma {:induction false} ReadFiltered(lines: seq<Line>, p: Line -> bool, name: string)
    requires forall l :: l in lines && !p(l) ==> CounterValue(l, name).None?
    ensures ReadCounter(Filter(lines, p), name) == ReadCounter(lines, name)
  {
    hide CounterValue;
    if lines != [] {
      ReadFiltered(lines[1..], p, name);
    }
  }

  /** A table row of a file whose counters stand apart holds none of them. */
  lemma {:induction false} RowReadsNothing(l: Line)
    requires NamesOnce(l, ACTIVE, ARCHIVED) && StartsWith(l, "| ")
    ensures CounterValue(l, ACTIVE).None? && CounterValue(l, ARCHIVED).None?
  {
    NoNameNoCounter(l, ACTIVE);
    NoNameNoCounter(l, ARCHIVED);
  }

  // ---------------------------------------------------------------------------------------------
  // Rows

  lemma {:induction false} IdsOfNoRows(lines: seq<Line>, p: Line -> bool)
    requires forall l :: l in lines && !p(l) ==> !IsRow(l)
    ensures Ids(Filter(lines, p)) == Ids(lines)
  {
    hide DebtId;
    if lines != [] {
      IdsOfNoRows(lines[1..], p);
      IdsFirst(lines);
      if p(lines[0]) {
        IdsConcat([lines[0]], Filter(lines[1..], p));
      }
    }
  }

  lemma {:induction false} IdsOfClosed(lines: seq<Line>, td: string)
    requires IsId(td)
    ensures Ids(Filter(lines, (l: Line) => !StartsRow(l, td))) == Filter(Ids(lines), (id: string) => id != td)
  {
    if lines != [] {
      var l, rest := lines[0], lines[1..];
      IdsOfClosed(rest, td);
      RowOfId(l, td);
      IdsFirst(lines);
      FilterAppend(Ids([l]), Ids(rest), (id: string) => id != td);
      hide DebtId, IsId, Ids;
      IdsConcat([l], Filter(rest, (l: Line) => !StartsRow(l, td)));
      hide StartsRow;
      assert IsRow(l) ==> [DebtId(l).value][1..] == [];
    }
  }

  lemma {:induction false} NoRowOf(lines: seq<Line>, td: string)
    requires IsId(td)
    ensures (forall l :: l in lines ==> !StartsRow(l, td)) <==> td !in Ids(lines)
  {
    forall l ensures StartsRow(l, td) <==> DebtId(l) == Some(td) {
      RowOfId(l, td);
    }
    hide StartsRow;
    if l: Line :| l in lines && DebtId(l) == Some(td) {
      assert IsRow(l);
    }
  }

  function TdsOf(closes: seq<CloseRow>): seq<string> { Map(closes, (r: CloseRow) => r.td) }

  lemma {:induction false} CheckedRows(rows: seq<CloseRow>)
    requires FirstCloseError(rows).None?
    ensures forall r :: r in rows ==> CloseError(r).None?
  {
    hide CloseError;
    if rows != [] {
      CheckedRows(rows[1..]);
    }
  }

  lemma {:induction false} ClosedOne(lines: seq<Line>, td: string)
    requires IsId(td) && Distinct(Ids(lines)) && !(forall l :: l in lines ==> !StartsRow(l, td))
    ensures var left := Filter(lines, (l: Line) => !StartsRow(l, td));
            Distinct(Ids(left)) && multiset(Ids(lines)) == multiset(Ids(left)) + multiset{td}
  {
    hide IsId, StartsRow, Ids;
    IdsOfClosed(lines, td);
    NoRowOf(lines, td);
    FilterDistinct(Ids(lines), (id: string) => id != td);
    TakeOne(Ids(lines), td);
  }

  /** Closing takes away exactly the named ids, each of which was active. */
  lemma {:induction false} ClosedIds(lines: seq<Line>, closes: seq<CloseRow>)
    requires (forall r :: r in closes ==> IsId(r.td)) && CloseAll(lines, closes).Ok? && Distinct(Ids(lines))
    ensures multiset(Ids(lines)) == multiset(Ids(CloseAll(lines, closes).value)) + multiset(TdsOf(closes))
    decreases |closes|
  {
    hide IsId, StartsRow, Ids, Distinct;
    if closes == [] {
      assert TdsOf(closes) == [];
    } else {
      var td := closes[0].td;
      ClosedOne(lines, td);
      assert forall r :: r in closes[1..] ==> r in closes;
      var left := FirstClosedRow(lines, closes, td);
      ClosedIds(left, closes[1..]);
      assert TdsOf(closes) == [td] + TdsOf(closes[1..]);
    }
  }

  lemma {:induction false} FirstClosedRow(lines: seq<Line>, closes: seq<CloseRow>, td: string) returns (left: seq<Line>)
    requires closes != [] && closes[0].td == td && CloseAll(lines, closes).Ok?
    ensures left == Filter(lines, (l: Line) => !StartsRow(l, td)) && CloseAll(lines, closes) == CloseAll(left, closes[1..])
  {
    hide StartsRow;
    left := Filter(lines, (l: Line) => !StartsRow(l, td));
    FilterAgree(lines, (l: Line) => !StartsRow(l, closes[0].td), (l: Line) => !StartsRow(l, td));
  }

  lemma {:induction false} TakeOne(ids: seq<string>, id: string)
    requires Distinct(ids) && id in ids
    ensures multiset(ids) == multiset(Filter(ids, (x: string) => x != id)) + multiset{id}
  {
    var first, rest := ids[0], ids[1..];
    assert ids == [first] + rest;
    DistinctConcat([first], rest);
    if first == id {
      FilterAll(rest, (x: string) => x != id);
    } else {
      TakeOne(rest, id);
    }
  }

  /** Accepted new rows have different ids, none of them known. */
  lemma {:induction false} OpenedIds(known: set<string>, rows: seq<Line>)
    requires OpenError(known, rows).None?
    ensures Distinct(Ids(rows)) && (forall id :: id in Ids(rows) ==> id !in known) && (forall l :: l in rows ==> IsRow(l))
    decreases |rows|
  {
    hide EndsRow;
    if rows != [] {
      var id := DebtId(rows[0]).value;
      OpenedIds(known + {id}, rows[1..]);
      IdsFirst(rows);
      DistinctConcat([id], Ids(rows[1..]));
    }
  }

  lemma {:induction false} ArchivedIds(closes: seq<CloseRow>)
    requires forall r :: r in closes ==> CloseError(r).None?
    ensures Ids(ArchiveRows(closes)) == TdsOf(closes)
    decreases |closes|
  {
    if closes != [] {
      var r := closes[0];
      assert r in closes && CloseError(r).None?;
      ArchivedIds(closes[1..]);
      RowOfId(r.archiveRow, r.td);
      var rows := ArchiveRows(closes);
      assert rows[1..] == ArchiveRows(closes[1..]);
      IdsFirst(rows);
      assert TdsOf(closes) == [r.td] + TdsOf(closes[1..]);
    }
  }

  // ---------------------------------------------------------------------------------------------
  // The table as a whole

  lemma {:induction false} ClosedKeeps(lines: seq<Line>, closes: seq<CloseRow>)
    requires CloseAll(lines, closes).Ok? && CountersApart(lines)
    requires forall r :: r in closes ==> IsId(r.td)
    ensures CountersApart(CloseAll(lines, closes).value)
    ensures ReadCounter(CloseAll(lines, closes).value, ACTIVE) == ReadCounter(lines, ACTIVE)
    ensures ReadCounter(CloseAll(lines, closes).value, ARCHIVED) == ReadCounter(lines, ARCHIVED)
    decreases |closes|
  {
    hide NamesOnce, CounterValue, ReadCounter, StartsWith;
    if closes != [] {
      var p := (l: Line) => !StartsRow(l, closes[0].td);
      forall l | l in lines && !p(l) ensures CounterValue(l, ACTIVE).None? && CounterValue(l, ARCHIVED).None? {
        RowOfId(l, closes[0].td);
        TableRow(l);
        RowReadsNothing(l);
      }
      ReadFiltered(lines, p, ACTIVE);
      ReadFiltered(lines, p, ARCHIVED);
      assert forall r :: r in closes[1..] ==> r in closes;
      ClosedKeeps(Filter(lines, p), closes[1..]);
    }
  }

  /** Rows put between two lines: what the counters read and which ids are listed. */
  lemma {:induction false} Inserted(lines: seq<Line>, at: nat, rows: seq<Line>)
    requires at <= |lines| && CountersApart(lines) && CountersApart(rows) && forall l :: l in rows ==> StartsWith(l, "| ")
    ensures var r := lines[..at] + rows + lines[at..];
            && CountersApart(r)
            && ReadCounter(r, ACTIVE) == ReadCounter(lines, ACTIVE)
            && ReadCounter(r, ARCHIVED) == ReadCounter(lines, ARCHIVED)
            && multiset(Ids(r)) == multiset(Ids(lines)) + multiset(Ids(rows))
            && forall l :: l in r <==> l in lines || l in rows
  {
    forall l | l in rows ensures CounterValue(l, ACTIVE).None? && CounterValue(l, ARCHIVED).None? {
      RowReadsNothing(l);
    }
    hide NamesOnce, CounterValue, ReadCounter, StartsWith, Ids;
    var a, b := lines[..at], lines[at..];
    assert lines == a + b;
    InsertedReads(a, rows, b, ACTIVE);
    InsertedReads(a, rows, b, ARCHIVED);
    IdsConcat(a + rows, b);
    IdsConcat(a, rows);
    IdsConcat(a, b);
  }

  lemma {:induction false} InsertedReads(a: seq<Line>, rows: seq<Line>, b: seq<Line>, name: string)
    requires forall l :: l in rows ==> CounterValue(l, name).None?
    ensures ReadCounter(a + rows + b, name) == ReadCounter(a + b, name)
  {
    ReadNothing(rows, name);
    ReadConcat(a + rows, b, name);
    ReadConcat(a, rows, name);
    ReadConcat(a, b, name);
  }

  /** The new table: counters as before, the ids of both, the placeholder exactly when there is no row. */
  lemma {:induction false} TableKeeps(lines: seq<Line>, rows: seq<Line>)
    requires CountersApart(lines) && CountersApart(rows) && (forall l :: l in rows ==> IsRow(l)) && TableWith(lines, rows).Ok?
    ensures var r := TableWith(lines, rows).value;
            && CountersApart(r)
            && ReadCounter(r, ACTIVE) == ReadCounter(lines, ACTIVE)
            && ReadCounter(r, ARCHIVED) == ReadCounter(lines, ARCHIVED)
            && multiset(Ids(r)) == multiset(Ids(lines)) + multiset(Ids(rows))
            && (EMPTY_ROW in r <==> Ids(r) == [])
  {
    hide *;
    var bare := Filter(lines, (l: Line) => l != EMPTY_ROW);
    BareKeeps(lines);
    forall l | l in rows ensures StartsWith(l, "| ") && l != EMPTY_ROW {
      TableRow(l);
    }
    var header, at := TableParts(lines, rows);
    var full := bare[..at] + rows + bare[at..];
    Inserted(bare, at, rows);
    if Ids(full) == [] {
      PlaceholderKeeps(full, header + 1);
    }
  }

  lemma {:induction false} TableParts(lines: seq<Line>, rows: seq<Line>) returns (header: nat, at: nat)
    requires TableWith(lines, rows).Ok?
    ensures var bare := Filter(lines, (l: Line) => l != EMPTY_ROW);
            && header < at <= |bare|
            && var full := bare[..at] + rows + bare[at..];
               TableWith(lines, rows).value
               == if Ids(full) == [] then full[..header + 1] + [EMPTY_ROW] + full[header + 1..] else full
  {
    hide Ids, IsRow;
    var bare := Filter(lines, (l: Line) => l != EMPTY_ROW);
    header := FindFrom(bare, (l: Line) => l == TABLE_SEP, 0);
    at := FindFrom(bare, NotRow, header + 1);
  }

  lemma {:induction false} BareKeeps(lines: seq<Line>)
    requires CountersApart(lines)
    ensures var bare := Filter(lines, (l: Line) => l != EMPTY_ROW);
            && CountersApart(bare) && Ids(bare) == Ids(lines)
            && ReadCounter(bare, ACTIVE) == ReadCounter(lines, ACTIVE)
            && ReadCounter(bare, ARCHIVED) == ReadCounter(lines, ARCHIVED)
  {
    var p := (l: Line) => l != EMPTY_ROW;
    TableRow(EMPTY_ROW);
    EmptyRowShape();
    if EMPTY_ROW in lines {
      RowReadsNothing(EMPTY_ROW);
    }
    hide NamesOnce, CounterValue, ReadCounter, StartsWith, Ids, IsRow;
    ReadFiltered(lines, p, ACTIVE);
    ReadFiltered(lines, p, ARCHIVED);
    IdsOfNoRows(lines, p);
  }

  lemma {:induction false} PlaceholderKeeps(full: seq<Line>, at: nat)
    requires CountersApart(full) && Ids(full) == [] && at <= |full|
    ensures var r := full[..at] + [EMPTY_ROW] + full[at..];
            && CountersApart(r) && Ids(r) == [] && EMPTY_ROW in r
            && ReadCounter(r, ACTIVE) == ReadCounter(full, ACTIVE)
            && ReadCounter(r, ARCHIVED) == ReadCounter(full, ARCHIVED)
  {
    TableRow(EMPTY_ROW);
    EmptyRowShape();
    EmptyRowNamesNothing();
    hide NamesOnce, CounterValue, ReadCounter, StartsWith, Ids, IsRow;
    Inserted(full, at, [EMPTY_ROW]);
    NoIds([EMPTY_ROW]);
    EmptyIds(full[..at] + [EMPTY_ROW] + full[at..]);
  }

  lemma {:induction false} EmptyRowNamesNothing()
    ensures NamesOnce(EMPTY_ROW, ACTIVE, ARCHIVED)
  {
    CounterNames();
    assert forall i :: 0 <= i < |EMPTY_ROW| ==> EMPTY_ROW[i] != '-';
    NoDash(EMPTY_ROW, ACTIVE);
    NoDash(EMPTY_ROW, ARCHIVED);
  }

  lemma {:induction false} NoDash(l: Line, name: string)
    requires IsName(name) && forall i :: 0 <= i < |l| ==> l[i] != '-'
    ensures !Occurs(l, name)
  {
    forall k ensures !OccursAt(l, name, k) {
      assert 0 <= k < |l| ==> l[k..][0] == l[k];
      assert 0 <= k <= |l| && |name| <= |l[k..]| ==> l[k..][..|name|][0] == l[k..][0];
    }
  }

  lemma {:induction false} NoIds(lines: seq<Line>)
    requires forall l :: l in lines ==> !IsRow(l)
    ensures Ids(lines) == []
  {
    if lines != [] {
      NoIds(lines[1..]);
    }
  }

  lemma {:induction false} EmptyIds(lines: seq<Line>)
    ensures multiset(Ids(lines)) == multiset{} ==> Ids(lines) == []
  {
    assert |multiset(Ids(lines))| == |Ids(lines)|;
  }

  // ---------------------------------------------------------------------------------------------
  // The closed rows

  lemma {:induction false} SectionIsNoRow(series: nat, l: Line)
    requires IsSection(series, l)
    ensures !IsRow(l)
  {
    TableRow(l);
    assert l[..3] == "## " && l[0] == l[..3][0] == '#';
    assert StartsWith(l, "| ") ==> l[..2][0] == '|';
  }

  /** Closed rows go under the table of the section, which stays where it is. */
  lemma {:induction false} ClosedTableStays(closed: seq<Line>, series: nat, rows: seq<Line>)
    requires ClosedTable(closed, series).Some? && forall l :: l in rows ==> !IsSection(series, l)
    ensures var t := ClosedTable(closed, series).value;
            && ClosedTable(closed[..t + 1] + rows + closed[t + 1..], series) == Some(t)
            && exists l :: l in closed && IsSection(series, l)
  {
    hide IsSection, EndsTableHead, Contains, ClosedTable;
    var k, q, t := ClosedParts(closed, series);
    var r := closed[..t + 1] + rows + closed[t + 1..];
    var k' := if k <= t then k else k + |rows|;
    assert forall i :: 0 <= i <= t ==> r[i] == closed[i];
    forall i | 0 <= i <= k' ensures IsSection(series, r[i]) <==> i == k' {
      assert r[i] == if i <= t then closed[i] else if i <= t + |rows| then rows[i - t - 1] else closed[i - |rows|];
    }
    assert r[k'] == closed[k];
    ClosedTableIs(r, series, k', q, t);
  }

  lemma {:induction false} ClosedParts(closed: seq<Line>, series: nat) returns (k: nat, q: nat, t: nat)
    requires ClosedTable(closed, series).Some?
    ensures k < |closed| && q <= k && q <= t && t + 1 < |closed| && ClosedTable(closed, series) == Some(t)
    ensures IsSection(series, closed[k]) && forall i :: 0 <= i < k ==> !IsSection(series, closed[i])
    ensures Contains(closed[q], closed[k]) && forall i :: 0 <= i < q ==> !Contains(closed[i], closed[k])
    ensures EndsTableHead(closed[t]) && forall i :: q <= i < t ==> !EndsTableHead(closed[i])
  {
    k := FindFrom(closed, (l: Line) => IsSection(series, l), 0);
    SelfContained(closed[k]);
    hide IsSection, EndsTableHead, Contains;
    q := FindFrom(closed, (l: Line) => Contains(l, closed[k]), 0);
    t := FindFrom(closed, EndsTableHead, q);
  }

  lemma {:induction false} SelfContained(l: Line)
    ensures Contains(l, l)
  {
    assert StartsWith(l[0..], l);
  }

  lemma {:induction false} ClosedTableIs(r: seq<Line>, series: nat, k: nat, q: nat, t: nat)
    requires k < |r| && q <= k && q <= t && t + 1 < |r|
    requires forall i :: 0 <= i <= k ==> (IsSection(series, r[i]) <==> i == k)
    requires Contains(r[q], r[k]) && forall i :: 0 <= i < q ==> !Contains(r[i], r[k])
    requires EndsTableHead(r[t]) && forall i :: q <= i < t ==> !EndsTableHead(r[i])
    ensures ClosedTable(r, series) == Some(t)
  {
    hide IsSection, EndsTableHead, Contains;
    FindFromIs(r, (l: Line) => IsSection(series, l), 0, k);
    FindFromIs(r, (l: Line) => Contains(l, r[k]), 0, q);
    FindFromIs(r, EndsTableHead, q, t);
  }

  lemma {:induction false} RowsAreNoSections(closes: seq<CloseRow>, series: nat)
    requires forall r :: r in closes ==> CloseError(r).None?
    ensures forall l :: l in ArchiveRows(closes) ==> !IsSection(series, l)
  {
    hide IsSection, DebtId;
    var rows := ArchiveRows(closes);
    forall l | l in rows ensures !IsSection(series, l) {
      var i :| 0 <= i < |rows| && rows[i] == l;
      assert closes[i] in closes && CloseError(closes[i]).None?;
      RowOfId(l, closes[i].td);
      if IsSection(series, l) {
        SectionIsNoRow(series, l);
      }
    }
  }

  lemma {:induction false} InsertedIds(lines: seq<Line>, at: nat, rows: seq<Line>)
    requires at <= |lines|
    ensures multiset(Ids(lines[..at] + rows + lines[at..])) == multiset(Ids(lines)) + multiset(Ids(rows))
  {
    hide Ids;
    var a, b := lines[..at], lines[at..];
    assert lines == a + b;
    IdsConcat(a + rows, b);
    IdsConcat(a, rows);
    IdsConcat(a, b);
  }

  lemma {:induction false} ClosedKeepsIds(closed: seq<Line>, series: nat, closes: seq<CloseRow>)
    requires ClosedTable(closed, series).Some? && forall r :: r in closes ==> CloseError(r).None?
    ensures WithClosed(closed, series, closes).Ok?
    ensures var after := WithClosed(closed, series, closes).value;
            && multiset(Ids(after)) == multiset(Ids(closed)) + multiset(TdsOf(closes))
            && ClosedTable(after, series).Some?
  {
    hide IsSection, Ids, ClosedTable, ArchiveRows, CloseError;
    var rows := ArchiveRows(closes);
    ArchivedIds(closes);
    if closes == [] {
      assert TdsOf(closes) == [];
    } else {
      RowsAreNoSections(closes, series);
      ClosedTableStays(closed, series, rows);
      InsertedIds(closed, ClosedTable(closed, series).value + 1, rows);
    }
  }

  // ---------------------------------------------------------------------------------------------
  // The gate

  /** The gate is silent exactly when no id is listed twice and none is both active and closed. */
  lemma {:induction false} GateIff(debt: seq<Line>, closed: seq<Line>)
    ensures FindDebtRegistryViolations(debt, closed) == []
       <==> Distinct(Ids(debt)) && Distinct(Ids(closed)) && forall id :: id in Ids(debt) ==> id !in Ids(closed)
  {
    hide Ids;
    var active, archived := Ids(debt), Ids(closed);
    TwiceIff(active);
    TwiceIff(archived);
    FirstOnesAll(active, {});
    var both := Filter(FirstOnes(active, {}), (id: string) => id in archived);
    assert both == [] <==> forall id :: id in active ==> id !in archived by {
      if both != [] {
        assert both[0] in both;
      }
    }
  }

  lemma {:induction false} FirstOnesAll(ids: seq<string>, seen: set<string>)
    ensures forall id :: id in ids && id !in seen ==> id in FirstOnes(ids, seen)
  {
    if ids != [] {
      FirstOnesAll(ids[1..], seen + {ids[0]});
    }
  }

  lemma {:induction false} TwiceIff(ids: seq<string>)
    ensures Twice(ids) == [] <==> Distinct(ids)
  {
    var all := FirstOnes(ids, {});
    var twice := Filter(all, (id: string) => Repeats(ids, id));
    FirstOnesAll(ids, {});
    DistinctCounts(ids);
    assert forall id :: id in ids ==> multiset(ids)[id] >= 1;
    if twice != [] {
      assert twice[0] in twice;
    }
  }

  // ---------------------------------------------------------------------------------------------
  // Runs

  /** Both counters are true, the placeholder stands exactly in an empty table, and the gate is silent. */
  ghost predicate Consistent(reg: Registry, series: nat) {
    && CountersApart(reg.debt)
    && ReadCounter(reg.debt, ACTIVE) == Some(|Ids(reg.debt)|)
    && ReadCounter(reg.debt, ARCHIVED) == Some(|Ids(reg.closed)| + |Ids(reg.frozen)|)
    && (EMPTY_ROW in reg.debt <==> Ids(reg.debt) == [])
    && FindDebtRegistryViolations(reg.debt, reg.closed + reg.frozen) == []
    && ClosedTable(reg.closed, series).Some?
  }

  datatype Status = Unused | Open | Done

  function StatusOf(reg: Registry, id: string): Status {
    if id in Ids(reg.debt) then Open else if id in Ids(reg.closed + reg.frozen) then Done else Unused
  }

  /** The ids before and after: `tds` closed, `added` new. */
  ghost predicate Moved(before: Registry, after: Registry, tds: seq<string>, added: seq<string>) {
    && after.frozen == before.frozen && (forall id :: id in tds ==> id in Ids(before.debt))
    && multiset(Ids(before.debt)) + multiset(added) == multiset(Ids(after.debt)) + multiset(tds)
    && multiset(Ids(after.closed)) == multiset(Ids(before.closed)) + multiset(tds)
    && Distinct(added) && forall id :: id in added ==> StatusOf(before, id) == Unused
  }

  lemma {:induction false} SameMembers(a: seq<string>, b: seq<string>)
    requires multiset(a) == multiset(b)
    ensures forall id :: id in b ==> id in a
  {
    assert forall id :: id in b ==> id in multiset(b);
  }

  lemma {:induction false} NewTableKeeps(reg: Registry, closes: seq<CloseRow>, openRows: seq<Line>)
    requires CountersApart(reg.debt) && CountersApart(openRows) && Distinct(Ids(reg.debt))
    requires (forall r :: r in closes ==> CloseError(r).None?) && NewTable(reg, closes, openRows).Ok?
    ensures var r := NewTable(reg, closes, openRows).value;
            && CountersApart(r)
            && ReadCounter(r, ACTIVE) == ReadCounter(reg.debt, ACTIVE)
            && ReadCounter(r, ARCHIVED) == ReadCounter(reg.debt, ARCHIVED)
            && (EMPTY_ROW in r <==> Ids(r) == [])
            && multiset(Ids(r)) + multiset(TdsOf(closes)) == multiset(Ids(reg.debt)) + multiset(Ids(openRows))
    ensures Distinct(Ids(openRows)) && forall id :: id in Ids(openRows) ==> StatusOf(reg, id) == Unused
    ensures forall id :: id in TdsOf(closes) ==> id in Ids(reg.debt)
  {
    hide *;
    var left := TableSteps(reg, closes, openRows);
    IdsAreIds(closes);
    ClosedKeeps(reg.debt, closes);
    ClosedIds(reg.debt, closes);
    SameMembers(Ids(reg.debt), Ids(left) + TdsOf(closes));
    OpenedIds(KnownIds(reg), openRows);
    TableKeeps(left, openRows);
    UnknownIsUnused(reg);
  }

  lemma {:induction false} TableSteps(reg: Registry, closes: seq<CloseRow>, openRows: seq<Line>)
    returns (left: seq<Line>)
    requires NewTable(reg, closes, openRows).Ok?
    ensures CloseAll(reg.debt, closes) == Ok(left) && OpenError(KnownIds(reg), openRows).None?
    ensures TableWith(left, openRows) == NewTable(reg, closes, openRows)
  {
    hide CloseAll, OpenError, TableWith, KnownIds;
    left := CloseAll(reg.debt, closes).value;
  }

  lemma {:induction false} IdsAreIds(closes: seq<CloseRow>)
    requires forall r :: r in closes ==> CloseError(r).None?
    ensures forall r :: r in closes ==> IsId(r.td)
  {
    hide IsId;
  }

  lemma {:induction false} UnknownIsUnused(reg: Registry)
    ensures forall id :: id !in KnownIds(reg) ==> StatusOf(reg, id) == Unused
  {
    hide Ids;
    IdsConcat(reg.debt + reg.closed, reg.frozen);
    IdsConcat(reg.debt, reg.closed);
    IdsConcat(reg.closed, reg.frozen);
  }

  /** One release: the registry stays consistent, the reported counts are true, and the ids move as asked. */
  lemma {:induction false} ReleaseKeepsRegistry(reg: Registry, spec: DebtSpec, series: nat, closes: seq<CloseRow>)
    requires Consistent(reg, series) && CountersApart(spec.openRows)
    requires CloseRowsOf(spec) == Ok(closes) && UpdateDebt(reg, spec, series).Ok?
    ensures var u := UpdateDebt(reg, spec, series).value;
            && Consistent(u.registry, series)
            && u.active == |Ids(u.registry.debt)| && u.archived == |Ids(u.registry.closed)| + |Ids(u.registry.frozen)|
            && Moved(reg, u.registry, TdsOf(closes), Ids(spec.openRows))
  {
    hide *;
    var after := UpdateDebt(reg, spec, series).value.registry;
    ConsistentParts(reg, series);
    GateIff(reg.debt, reg.closed + reg.frozen);
    if closes == [] && spec.openRows == [] {
      NothingMoves(reg, spec, series);
    } else {
      AcceptedRows(spec, closes);
      var lines := UpdateParts(reg, spec, series, closes);
      NewTableKeeps(reg, closes, spec.openRows);
      ClosedKeepsIds(reg.closed, series, closes);
      CountersSet(lines, |Ids(lines)|, |Ids(reg.closed)| + |Ids(reg.frozen)| + |closes|);
      MovedIs(reg, after, TdsOf(closes), Ids(spec.openRows));
      MovedIds(reg, after, closes, Ids(spec.openRows));
      ConsistentParts(after, series);
    }
  }

  lemma {:induction false} ConsistentParts(reg: Registry, series: nat)
    ensures Consistent(reg, series)
       <==> && CountersApart(reg.debt)
            && ReadCounter(reg.debt, ACTIVE) == Some(|Ids(reg.debt)|)
            && ReadCounter(reg.debt, ARCHIVED) == Some(|Ids(reg.closed)| + |Ids(reg.frozen)|)
            && (EMPTY_ROW in reg.debt <==> Ids(reg.debt) == [])
            && FindDebtRegistryViolations(reg.debt, reg.closed + reg.frozen) == []
            && ClosedTable(reg.closed, series).Some?
  {
    hide CountersApart, ReadCounter, Ids, FindDebtRegistryViolations, ClosedTable;
  }

  lemma {:induction false} MovedIs(before: Registry, after: Registry, tds: seq<string>, added: seq<string>)
    ensures Moved(before, after, tds, added)
       <==> && after.frozen == before.frozen && (forall id :: id in tds ==> id in Ids(before.debt))
            && multiset(Ids(before.debt)) + multiset(added) == multiset(Ids(after.debt)) + multiset(tds)
            && multiset(Ids(after.closed)) == multiset(Ids(before.closed)) + multiset(tds)
            && Distinct(added) && forall id :: id in added ==> StatusOf(before, id) == Unused
  {
  }

  lemma {:induction false} NothingMoves(reg: Registry, spec: DebtSpec, series: nat)
    requires Consistent(reg, series) && CloseRowsOf(spec) == Ok([]) && spec.openRows == []
    ensures UpdateDebt(reg, spec, series) == Ok(Updated(reg, |Ids(reg.debt)|, |Ids(reg.closed)| + |Ids(reg.frozen)|))
    ensures Moved(reg, reg, TdsOf([]), Ids(spec.openRows))
  {
    hide ReadCounter, CountersApart, FindDebtRegistryViolations, ClosedTable, CloseRowsOf;
    assert TdsOf([]) == [] && Ids([]) == [];
  }

  /** What the update computes when it changes anything. */
  lemma {:induction false} UpdateParts(reg: Registry, spec: DebtSpec, series: nat, closes: seq<CloseRow>)
    returns (lines: seq<Line>)
    requires CloseRowsOf(spec) == Ok(closes) && (closes != [] || spec.openRows != []) && UpdateDebt(reg, spec, series).Ok?
    ensures NewTable(reg, closes, spec.openRows) == Ok(lines)
    ensures ReadCounter(lines, ARCHIVED).Some? && WithClosed(reg.closed, series, closes).Ok?
    ensures var n := ReadCounter(lines, ARCHIVED).value + |closes|;
            UpdateDebt(reg, spec, series).value
            == Updated(Registry(SetCounter(SetCounter(lines, ACTIVE, |Ids(lines)|), ARCHIVED, n),
                                WithClosed(reg.closed, series, closes).value, reg.frozen), |Ids(lines)|, n)
  {
    hide NewTable, ReadCounter, WithClosed, SetCounter, Ids, CloseRowsOf;
    lines := NewTable(reg, closes, spec.openRows).value;
  }

  lemma {:induction false} AcceptedRows(spec: DebtSpec, closes: seq<CloseRow>)
    requires CloseRowsOf(spec) == Ok(closes)
    ensures forall r :: r in closes ==> CloseError(r).None?
  {
    hide CloseError;
    CheckedRows(closes);
  }

  lemma {:induction false} CountersSet(lines: seq<Line>, active: nat, archived: nat)
    requires CountersApart(lines) && ReadCounter(lines, ACTIVE).Some? && ReadCounter(lines, ARCHIVED).Some?
    ensures var r := SetCounter(SetCounter(lines, ACTIVE, active), ARCHIVED, archived);
            && CountersApart(r) && ReadCounter(r, ACTIVE) == Some(active) && ReadCounter(r, ARCHIVED) == Some(archived)
            && Ids(r) == Ids(lines) && (EMPTY_ROW in r <==> EMPTY_ROW in lines)
  {
    hide NamesOnce, Ids, ReadCounter, SetCounter, IsName;
    CounterNames();
    SetCounterReads(lines, ACTIVE, ARCHIVED, active);
    var one := SetCounter(lines, ACTIVE, active);
    forall l ensures NamesOnce(l, ACTIVE, ARCHIVED) <==> NamesOnce(l, ARCHIVED, ACTIVE) {
      NamesOnceSym(l);
    }
    SetCounterReads(one, ARCHIVED, ACTIVE, archived);
  }

  /** Moving ids keeps them apart: the gate stays silent. */
  lemma {:induction false} MovedIds(before: Registry, after: Registry, closes: seq<CloseRow>, added: seq<string>)
    requires Moved(before, after, TdsOf(closes), added)
    requires FindDebtRegistryViolations(before.debt, before.closed + before.frozen) == []
    ensures FindDebtRegistryViolations(after.debt, after.closed + after.frozen) == []
    ensures |Ids(after.closed)| == |Ids(before.closed)| + |closes|
  {
    hide Ids;
    GateIff(before.debt, before.closed + before.frozen);
    GateIff(after.debt, after.closed + after.frozen);
    IdsConcat(before.closed, before.frozen);
    IdsConcat(after.closed, after.frozen);
    var tds := TdsOf(closes);
    hide FindDebtRegistryViolations;
    assert |multiset(Ids(after.closed))| == |multiset(Ids(before.closed))| + |multiset(tds)|;
    ApartAfter(Ids(before.debt), Ids(before.closed), Ids(before.frozen), Ids(after.debt), Ids(after.closed), tds, added);
  }

  lemma {:induction false} ApartAfter(d: seq<string>, c: seq<string>, f: seq<string>, d': seq<string>, c': seq<string>,
                                      tds: seq<string>, added: seq<string>)
    requires Distinct(d) && Distinct(c + f) && forall id :: id in d ==> id !in c + f
    requires multiset(d) + multiset(added) == multiset(d') + multiset(tds) && multiset(c') == multiset(c) + multiset(tds)
    requires Distinct(added) && forall id :: id in added ==> id !in d && id !in c + f
    requires forall id :: id in tds ==> id in d
    ensures Distinct(d') && Distinct(c' + f) && forall id :: id in d' ==> id !in c' + f
  {
    DistinctConcat(d, added);
    DistinctConcat(d', tds);
    assert multiset(d + added) == multiset(d' + tds);
    DistinctPermutation(d + added, d' + tds);
    assert multiset((c + f) + tds) == multiset(c' + f);
    DistinctConcat(c + f, tds);
    DistinctPermutation((c + f) + tds, c' + f);
    assert forall id :: id in d' ==> id in d' + tds;
  }

  /** What is on disk after a release: nothing changes when it fails. */
  function After(reg: Registry, spec: DebtSpec, series: nat): Registry {
    match UpdateDebt(reg, spec, series) case Ok(u) => u.registry case Err(_) => reg
  }

  /** A run of releases from `regs[0]`, whose new rows name no counter. */
  ghost predicate IsRun(regs: seq<Registry>, specs: seq<DebtSpec>, series: nat) {
    && |regs| == |specs| + 1
    && forall i :: 0 <= i < |specs| ==> CountersApart(specs[i].openRows) && regs[i + 1] == After(regs[i], specs[i], series)
  }

  /** However many releases ran, and whichever of them failed, the registry is consistent. */
  lemma {:induction false} RunKeepsRegistry(regs: seq<Registry>, specs: seq<DebtSpec>, series: nat, i: nat)
    requires IsRun(regs, specs, series) && Consistent(regs[0], series) && i < |regs|
    ensures Consistent(regs[i], series)
  {
    hide Consistent, CountersApart, UpdateDebt;
    if i > 0 {
      RunKeepsRegistry(regs, specs, series, i - 1);
      StepKeeps(regs[i - 1], specs[i - 1], series);
    }
  }

  lemma {:induction false} StepKeeps(reg: Registry, spec: DebtSpec, series: nat)
    requires Consistent(reg, series) && CountersApart(spec.openRows)
    ensures Consistent(After(reg, spec, series), series)
    ensures forall id :: Follows(StatusOf(reg, id), StatusOf(After(reg, spec, series), id))
  {
    hide *;
    AfterIs(reg, spec, series);
    if UpdateDebt(reg, spec, series).Ok? {
      var closes := CloseRowsOf(spec).value;
      ReleaseKeepsRegistry(reg, spec, series, closes);
      ConsistentParts(reg, series);
      GateIff(reg.debt, reg.closed + reg.frozen);
      StatusMoves(reg, After(reg, spec, series), TdsOf(closes), Ids(spec.openRows));
    } else {
      SameStatus(reg);
    }
  }

  lemma {:induction false} AfterIs(reg: Registry, spec: DebtSpec, series: nat)
    ensures UpdateDebt(reg, spec, series).Ok? ==>
              CloseRowsOf(spec).Ok? && After(reg, spec, series) == UpdateDebt(reg, spec, series).value.registry
    ensures UpdateDebt(reg, spec, series).Err? ==> After(reg, spec, series) == reg
  {
    hide CloseRowsOf, NewTable, WithClosed, ReadCounter, SetCounter, Ids;
  }

  lemma {:induction false} SameStatus(reg: Registry)
    ensures forall id :: Follows(StatusOf(reg, id), StatusOf(reg, id))
  {
  }

  /** An id stays as it is, or is opened when unused, or is closed when open. */
  predicate Follows(before: Status, after: Status) {
    before == after || (before.Unused? && after.Open?) || (before.Open? && after.Done?)
  }

  lemma {:induction false} StatusMoves(before: Registry, after: Registry, tds: seq<string>, added: seq<string>)
    requires Moved(before, after, tds, added)
    requires Distinct(Ids(before.debt)) && forall id :: id in Ids(before.debt) ==> id !in Ids(before.closed + before.frozen)
    ensures forall id :: Follows(StatusOf(before, id), StatusOf(after, id))
  {
    hide Ids;
    IdsConcat(before.closed, before.frozen);
    IdsConcat(after.closed, after.frozen);
    var d, d', c, c' := Ids(before.debt), Ids(after.debt), Ids(before.closed), Ids(after.closed);
    forall id ensures Follows(StatusOf(before, id), StatusOf(after, id)) {
      assert (multiset(d) + multiset(added))[id] == (multiset(d') + multiset(tds))[id];
      assert multiset(c')[id] == multiset(c)[id] + multiset(tds)[id];
      assert (id in d <==> multiset(d)[id] > 0) && (id in d' <==> multiset(d')[id] > 0) && (id in added <==> multiset(added)[id] > 0);
      assert (id in c <==> multiset(c)[id] > 0) && (id in c' <==> multiset(c')[id] > 0) && (id in tds <==> multiset(tds)[id] > 0);
    }
  }

  function Rank(s: Status): nat { match s case Unused => 0 case Open => 1 case Done => 2 }

  /** Over a run an id only moves from unused to active to closed. */
  lemma {:induction false} IdsMoveOneWay(regs: seq<Registry>, specs: seq<DebtSpec>, series: nat, id: string, i: nat,
                                         j: nat)
    requires IsRun(regs, specs, series) && Consistent(regs[0], series) && i <= j < |regs|
    ensures Rank(StatusOf(regs[i], id)) <= Rank(StatusOf(regs[j], id))
    decreases j
  {
    hide Consistent, CountersApart, After, StatusOf;
    if i < j {
      IdsMoveOneWay(regs, specs, series, id, i, j - 1);
      RunKeepsRegistry(regs, specs, series, j - 1);
      StepKeeps(regs[j - 1], specs[j - 1], series);
      assert Follows(StatusOf(regs[j - 1], id), StatusOf(regs[j], id));
    }
  }

  /** An id that was active once and no longer is, is closed for good: it is never given out again. */
  lemma {:induction false} IdsAreNeverReissued(regs: seq<Registry>, specs: seq<DebtSpec>, series: nat, id: string,
                                               i: nat, j: nat, k: nat)
    requires IsRun(regs, specs, series) && Consistent(regs[0], series) && i <= j <= k < |regs|
    requires StatusOf(regs[i], id) == Open && StatusOf(regs[j], id) != Open
    ensures StatusOf(regs[k], id) == Done
  {
    hide *;
    IdsMoveOneWay(regs, specs, series, id, i, j);
    IdsMoveOneWay(regs, specs, series, id, j, k);
    Ranks(StatusOf(regs[i], id), StatusOf(regs[j], id), StatusOf(regs[k], id));
  }

  lemma {:induction false} Ranks(a: Status, b: Status, c: Status)
    requires a == Open && b != Open && Rank(a) <= Rank(b) <= Rank(c)
    ensures c == Done
  {
  }

  // ---------------------------------------------------------------------------------------------
  // After a merge

  lemma {:induction false} IdsOfDropped(lines: seq<Line>, gone: seq<string>)
    ensures Ids(Filter(lines, (l: Line) => DebtId(l).None? || DebtId(l).value !in gone)) == Filter(Ids(lines), (id: string) => id !in gone)
  {
    if lines != [] {
      var l, rest := lines[0], lines[1..];
      IdsOfDropped(rest, gone);
      IdsFirst(lines);
      FilterAppend(Ids([l]), Ids(rest), (id: string) => id !in gone);
      hide DebtId, Ids;
      IdsConcat([l], Filter(rest, (l: Line) => DebtId(l).None? || DebtId(l).value !in gone));
      assert IsRow(l) ==> [DebtId(l).value][1..] == [];
    }
  }

  /**
   * After a merge the recount drops exactly the active rows the closed file holds and makes both counters true. The gate
   * is then silent exactly when no id was listed twice and none of the remaining ones is frozen; the frozen list is
   * counted but not used to drop rows, and the placeholder is left as the merge left it.
   */
  lemma {:induction false} RecountRepairs(reg: Registry)
    requires CountersApart(reg.debt) && ReadCounter(reg.debt, ACTIVE).Some? && ReadCounter(reg.debt, ARCHIVED).Some?
    ensures var r := Recount(reg);
            && r.closed == reg.closed && r.frozen == reg.frozen
            && Ids(r.debt) == Filter(Ids(reg.debt), (id: string) => id !in Ids(reg.closed))
            && ReadCounter(r.debt, ACTIVE) == Some(|Ids(r.debt)|)
            && ReadCounter(r.debt, ARCHIVED) == Some(|Ids(r.closed)| + |Ids(r.frozen)|)
            && (EMPTY_ROW in r.debt <==> EMPTY_ROW in reg.debt)
    ensures FindDebtRegistryViolations(Recount(reg).debt, reg.closed + reg.frozen) == []
       <==> && Distinct(Ids(Recount(reg).debt)) && Distinct(Ids(reg.closed + reg.frozen))
            && forall id :: id in Ids(Recount(reg).debt) ==> id !in Ids(reg.frozen)
  {
    hide *;
    var debt := DropArchived(reg.debt, reg.closed);
    DroppedKeeps(reg.debt, reg.closed);
    CountersSet(debt, |Ids(debt)|, |Ids(reg.closed)| + |Ids(reg.frozen)|);
    RecountIs(reg);
    GateIff(Recount(reg).debt, reg.closed + reg.frozen);
    IdsConcat(reg.closed, reg.frozen);
  }

  lemma {:induction false} RecountIs(reg: Registry)
    ensures var debt := DropArchived(reg.debt, reg.closed);
            Recount(reg) == Registry(
              SetCounter(SetCounter(debt, ACTIVE, |Ids(debt)|), ARCHIVED, |Ids(reg.closed)| + |Ids(reg.frozen)|),
              reg.closed, reg.frozen)
  {
    hide DropArchived, SetCounter, Ids;
  }

  lemma {:induction false} DroppedKeeps(debt: seq<Line>, closed: seq<Line>)
    requires CountersApart(debt)
    ensures var r := DropArchived(debt, closed);
            && CountersApart(r) && Ids(r) == Filter(Ids(debt), (id: string) => id !in Ids(closed))
            && ReadCounter(r, ACTIVE) == ReadCounter(debt, ACTIVE)
            && ReadCounter(r, ARCHIVED) == ReadCounter(debt, ARCHIVED)
            && (EMPTY_ROW in r <==> EMPTY_ROW in debt)
  {
    var gone := Ids(closed);
    var keep := (l: Line) => DebtId(l).None? || DebtId(l).value !in gone;
    FilterAgree(debt, keep, (l: Line) => DebtId(l).None? || DebtId(l).value !in Ids(closed));
    assert DropArchived(debt, closed) == Filter(debt, keep);
    TableRow(EMPTY_ROW);
    assert keep(EMPTY_ROW);
    hide NamesOnce, CounterValue, ReadCounter, Ids, DebtId, StartsWith, DropArchived;
    forall l | l in debt && !keep(l) ensures CounterValue(l, ACTIVE).None? && CounterValue(l, ARCHIVED).None? {
      TableRow(l);
      RowReadsNothing(l);
    }
    ReadFiltered(debt, keep, ACTIVE);
    ReadFiltered(debt, keep, ARCHIVED);
    IdsOfDropped(debt, gone);
    FilterAgree(Ids(debt), (id: string) => id !in gone, (id: string) => id !in Ids(closed));
  }
}
