/**
 * The migration planner (src/db/migrationPlan.ts): compares the journal of this build with the rows of
 * `__drizzle_migrations`, predicts what the Drizzle migrator will do and refuses every history in which that
 * migrator would silently skip a migration.
 */
module MigrationPlan {
  import opened Decimals
  import opened Seqs

  type Hash = string

  datatype JournalEntry = JournalEntry(idx: int, tag: string, when: int, hash: Hash)

  datatype Row = Row(hash: Hash, createdAt: int)

  /** A migration folded into the baseline, with every hash its text was released with. */
  datatype Folded = Folded(tag: string, when: int, hashes: seq<Hash>)

  datatype History = History(baselineTag: string, migrations: seq<Folded>)

  datatype PlanError =
    | WrongIndex(position: nat, idx: int)
    | WrongTag(idx: int, tag: string)
    | NotLater(tag: string, previous: string)
    | PartlyFolded(ran: nat, firstMissing: string)
    | NeverApplied(tag: string)
    | NewerDatabase(count: nat)

  datatype PlanWarning =
    | TextChanged(tag: string)
    | UnknownRows(whens: seq<int>)

  datatype MigrationPlan = MigrationPlan(pending: seq<string>, errors: seq<PlanError>, warnings: seq<PlanWarning>)

  // ---------------------------------------------------------------------------------------------
  // The journal check

  /** The number of `/^(\d{4})_/`. */
  function TagNumber(tag: string): Option<nat> {
    if |tag| >= 5 && AllDigits(tag[..4]) && tag[4] == '_' then Some(ValueOf(tag[..4])) else None
  }

  function EntryErrors(es: seq<JournalEntry>, i: nat): seq<PlanError>
    requires i < |es|
  {
    var e := es[i];
    (if e.idx != i then [WrongIndex(i, e.idx)] else [])
    + (if TagNumber(e.tag).None? || TagNumber(e.tag).value != e.idx then [WrongTag(e.idx, e.tag)] else [])
    + (if i > 0 && !(e.when > es[i - 1].when) then [NotLater(e.tag, es[i - 1].tag)] else [])
  }

  /** The errors of the first `n` entries. */
  function ErrorsBefore(es: seq<JournalEntry>, n: nat): seq<PlanError>
    requires n <= |es|
  {
    if n == 0 then [] else ErrorsBefore(es, n - 1) + EntryErrors(es, n - 1)
  }

  function JournalErrors(es: seq<JournalEntry>): seq<PlanError> { ErrorsBefore(es, |es|) }

  predicate ValidEntry(es: seq<JournalEntry>, i: nat)
    requires i < |es|
  {
    && es[i].idx == i
    && TagNumber(es[i].tag) == Some(i)
    && (i > 0 ==> es[i - 1].when < es[i].when)
  }

  /** Numbered from 0 without a gap, each tag carrying its number, `when` strictly increasing. */
  predicate ValidJournal(es: seq<JournalEntry>) {
    forall i :: 0 <= i < |es| ==> ValidEntry(es, i)
  }

  method ValidateMigrationJournal(entries: seq<JournalEntry>) returns (errors: seq<PlanError>)
    ensures errors == JournalErrors(entries)
    ensures errors == [] <==> ValidJournal(entries)
  {
    errors := [];
    for i := 0 to |entries|
      invariant errors == ErrorsBefore(entries, i)
    {
      var e := entries[i];
      if e.idx != i {
        errors := errors + [WrongIndex(i, e.idx)];
      }
      var prefix := TagNumber(e.tag);
      if prefix.None? || prefix.value != e.idx {
        errors := errors + [WrongTag(e.idx, e.tag)];
      }
      if i > 0 && !(e.when > entries[i - 1].when) {
        errors := errors + [NotLater(e.tag, entries[i - 1].tag)];
      }
    }
    JournalErrorsEmptyIff(entries, |entries|);
  }

  lemma {:induction false} JournalErrorsEmptyIff(es: seq<JournalEntry>, n: nat)
    requires n <= |es|
    ensures ErrorsBefore(es, n) == [] <==> forall i :: 0 <= i < n ==> ValidEntry(es, i)
  {
    if n > 0 {
      JournalErrorsEmptyIff(es, n - 1);
      assert EntryErrors(es, n - 1) == [] <==> ValidEntry(es, n - 1);
    }
  }

  lemma {:induction false} WhensIncrease(es: seq<JournalEntry>, i: nat, j: nat)
    requires ValidJournal(es) && i < j < |es|
    ensures es[i].when < es[j].when
    decreases j
  {
    assert ValidEntry(es, j);
    if i < j - 1 {
      WhensIncrease(es, i, j - 1);
    }
  }

  // ---------------------------------------------------------------------------------------------
  // Rows

  function MaxCreated(rows: seq<Row>): (m: int)
    requires rows != []
    ensures forall r :: r in rows ==> r.createdAt <= m
    ensures HasRow(rows, m)
  {
    if |rows| == 1 then rows[0].createdAt
    else
      var rest := MaxCreated(rows[1..]);
      if rest > rows[0].createdAt then rest else rows[0].createdAt
  }

  predicate HasRow(rows: seq<Row>, when: int) {
    exists r :: r in rows && r.createdAt == when
  }

  /** `Map` of the rows by `createdAt`: the last row of a time wins. */
  function RowAt(rows: seq<Row>, when: int): (r: Option<Row>)
    ensures r.Some? <==> HasRow(rows, when)
    ensures r.Some? ==> r.value in rows && r.value.createdAt == when
  {
    if rows == [] then None
    else if rows[|rows| - 1].createdAt == when then Some(rows[|rows| - 1])
    else
      assert forall r :: r in rows && r.createdAt == when ==> r in rows[..|rows| - 1];
      RowAt(rows[..|rows| - 1], when)
  }

  // ---------------------------------------------------------------------------------------------
  // Folding the squashed history

  function FindTag(es: seq<JournalEntry>, tag: string): (e: Option<JournalEntry>)
    ensures e.Some? ==> e.value in es && e.value.tag == tag
    ensures e.None? ==> forall x :: x in es ==> x.tag != tag
  {
    if es == [] then None else if es[0].tag == tag then Some(es[0]) else FindTag(es[1..], tag)
  }

  predicate FoldsAt(ms: seq<Folded>, when: int) {
    exists m :: m in ms && m.when == when
  }

  predicate IsFolded(h: History, when: int) { FoldsAt(h.migrations, when) }

  /** `Map` of the folded migrations by `when`: the last one of a time wins. */
  function FoldedAt(ms: seq<Folded>, when: int): (m: Folded)
    requires FoldsAt(ms, when)
    ensures m in ms && m.when == when
  {
    if ms[|ms| - 1].when == when then ms[|ms| - 1]
    else
      assert forall m :: m in ms && m.when == when ==> m in ms[..|ms| - 1];
      FoldedAt(ms[..|ms| - 1], when)
  }

  /** Some folded migration ran, other than at the time of the baseline. */
  predicate RanFolded(h: History, baseline: Option<JournalEntry>, rows: seq<Row>) {
    exists r :: r in rows && IsFolded(h, r.createdAt) && !(baseline.Some? && r.createdAt == baseline.value.when)
  }

  predicate IsBaselineRow(h: History, baseline: Option<JournalEntry>, ranFolded: bool, r: Row) {
    && baseline.Some?
    && r.createdAt == baseline.value.when
    && (|| r.hash == baseline.value.hash
        || (&& !ranFolded
            && !(IsFolded(h, r.createdAt) && r.hash in FoldedAt(h.migrations, r.createdAt).hashes)))
  }

  predicate IsOldRow(h: History, baseline: Option<JournalEntry>, ranFolded: bool, r: Row) {
    IsFolded(h, r.createdAt) && !IsBaselineRow(h, baseline, ranFolded, r)
  }

  function OldRows(h: History, baseline: Option<JournalEntry>, rows: seq<Row>): seq<Row> {
    var ranFolded := RanFolded(h, baseline, rows);
    Filter(rows, (r: Row) => IsOldRow(h, baseline, ranFolded, r))
  }

  function RestRows(h: History, baseline: Option<JournalEntry>, rows: seq<Row>): seq<Row> {
    var ranFolded := RanFolded(h, baseline, rows);
    Filter(rows, (r: Row) => !IsOldRow(h, baseline, ranFolded, r))
  }

  function ChangedTexts(h: History, olds: seq<Row>): seq<PlanWarning>
    requires forall r :: r in olds ==> IsFolded(h, r.createdAt)
  {
    if olds == [] then []
    else
      assert IsFolded(h, olds[0].createdAt);
      var m := FoldedAt(h.migrations, olds[0].createdAt);
      (if olds[0].hash in m.hashes then [] else [TextChanged(m.tag)]) + ChangedTexts(h, olds[1..])
  }

  datatype FoldResult = FoldResult(applied: seq<Row>, errors: seq<PlanError>, warnings: seq<PlanWarning>)

  /** Turns the rows of the folded migrations into one row of the baseline, or refuses a partial history. */
  function FoldSquashedHistory(es: seq<JournalEntry>, rows: seq<Row>, h: History): FoldResult {
    var baseline := FindTag(es, h.baselineTag);
    var olds := OldRows(h, baseline, rows);
    if olds == [] || baseline.None? then FoldResult(rows, [], [])
    else
      var missing := Filter(h.migrations, (m: Folded) => !HasRow(olds, m.when));
      FoldResult(
        RestRows(h, baseline, rows) + [Row(baseline.value.hash, baseline.value.when)],
        if missing == [] then [] else [PartlyFolded(|olds|, missing[0].tag)],
        ChangedTexts(h, olds))
  }

  function Fold(es: seq<JournalEntry>, rows: seq<Row>, squashed: Option<History>): FoldResult {
    match squashed
    case None => FoldResult(rows, [], [])
    case Some(h) => FoldSquashedHistory(es, rows, h)
  }

  // ---------------------------------------------------------------------------------------------
  // The plan

  type Amendments = map<string, seq<Hash>>

  function Amended(previous: Amendments, tag: string): seq<Hash> {
    if tag in previous then previous[tag] else []
  }

  predicate KnownWhen(es: seq<JournalEntry>, when: int) {
    exists e :: e in es && e.when == when
  }

  /** What the scan of the journal reports about entries not later than `last`. */
  function ScanErrors(es: seq<JournalEntry>, rows: seq<Row>, last: int): seq<PlanError> {
    if es == [] then []
    else
      var e := es[|es| - 1];
      ScanErrors(es[..|es| - 1], rows, last)
      + (if e.when <= last && RowAt(rows, e.when).None? then [NeverApplied(e.tag)] else [])
  }

  function ScanWarnings(es: seq<JournalEntry>, rows: seq<Row>, last: int, previous: Amendments): seq<PlanWarning> {
    if es == [] then []
    else
      var e := es[|es| - 1];
      var row := RowAt(rows, e.when);
      ScanWarnings(es[..|es| - 1], rows, last, previous)
      + (if e.when <= last && row.Some? && row.value.hash != e.hash && row.value.hash !in Amended(previous, e.tag)
         then [TextChanged(e.tag)] else [])
  }

  function TagOf(e: JournalEntry): string { e.tag }

  function NewestKnown(es: seq<JournalEntry>): int { if es == [] then 0 else es[|es| - 1].when }

  function LaterThan(es: seq<JournalEntry>, last: int): seq<JournalEntry> { Filter(es, (e: JournalEntry) => e.when > last) }

  function Unknown(es: seq<JournalEntry>, rows: seq<Row>): seq<Row> { Filter(rows, (r: Row) => !KnownWhen(es, r.createdAt)) }

  function NewerThan(rows: seq<Row>, when: int): seq<Row> { Filter(rows, (r: Row) => r.createdAt > when) }

  function NotNewerThan(rows: seq<Row>, when: int): seq<Row> { Filter(rows, (r: Row) => r.createdAt <= when) }

  function CreatedAtOf(r: Row): int { r.createdAt }

  function Plan(es: seq<JournalEntry>, rows: seq<Row>, previous: Amendments, squashed: Option<History>): MigrationPlan {
    var fold := Fold(es, rows, squashed);
    var journalErrors := JournalErrors(es) + fold.errors;
    if fold.errors != [] then MigrationPlan([], journalErrors, fold.warnings)
    else if fold.applied == [] then MigrationPlan(Map(es, TagOf), journalErrors, fold.warnings)
    else
      var last := MaxCreated(fold.applied);
      var unknown := Unknown(es, fold.applied);
      var older := NotNewerThan(unknown, NewestKnown(es));
      MigrationPlan(
        Map(LaterThan(es, last), TagOf),
        journalErrors + ScanErrors(es, fold.applied, last)
        + (if last > NewestKnown(es) then [NewerDatabase(|NewerThan(unknown, NewestKnown(es))|)] else []),
        fold.warnings + ScanWarnings(es, fold.applied, last, previous)
        + (if older != [] then [UnknownRows(Map(older, CreatedAtOf))] else []))
  }

  /** The source's `Map` of the applied rows by `createdAt`. */
  method IndexByWhen(rows: seq<Row>) returns (byWhen: map<int, Row>)
    ensures forall w :: w in byWhen <==> HasRow(rows, w)
    ensures forall w :: w in byWhen ==> RowAt(rows, w) == Some(byWhen[w])
  {
    byWhen := map[];
    for i := 0 to |rows|
      invariant forall w :: w in byWhen <==> RowAt(rows[..i], w).Some?
      invariant forall w :: w in byWhen ==> RowAt(rows[..i], w) == Some(byWhen[w])
    {
      assert rows[..i + 1][..i] == rows[..i];
      byWhen := byWhen[rows[i].createdAt := rows[i]];
    }
    assert rows[..|rows|] == rows;
  }

  /** The source's loop over the journal entries that are not later than the last applied row. */
  method ScanJournal(entries: seq<JournalEntry>, applied: seq<Row>, lastApplied: int, previousHashes: Amendments)
    returns (errors: seq<PlanError>, warnings: seq<PlanWarning>)
    ensures errors == ScanErrors(entries, applied, lastApplied)
    ensures warnings == ScanWarnings(entries, applied, lastApplied, previousHashes)
  {
    var appliedByWhen := IndexByWhen(applied);
    errors, warnings := [], [];
    for i := 0 to |entries|
      invariant errors == ScanErrors(entries[..i], applied, lastApplied)
      invariant warnings == ScanWarnings(entries[..i], applied, lastApplied, previousHashes)
    {
      var e := entries[i];
      assert entries[..i + 1][..i] == entries[..i];
      if e.when > lastApplied {
        continue;
      }
      if e.when !in appliedByWhen {
        errors := errors + [NeverApplied(e.tag)];
      } else {
        var row := appliedByWhen[e.when];
        if row.hash != e.hash && row.hash !in Amended(previousHashes, e.tag) {
          warnings := warnings + [TextChanged(e.tag)];
        }
      }
    }
    assert entries[..|entries|] == entries;
  }

  method PlanMigrations(entries: seq<JournalEntry>, appliedRows: seq<Row>, previousHashes: Amendments,
                        squashed: Option<History>)
    returns (plan: MigrationPlan)
    ensures plan == Plan(entries, appliedRows, previousHashes, squashed)
  {
    hide LaterThan, NewerThan, NotNewerThan, Unknown, ErrorsBefore, ScanErrors, ScanWarnings, FoldSquashedHistory,
         MaxCreated, ValidJournal;
    var fold := match squashed
      case None => FoldResult(appliedRows, [], [])
      case Some(h) => FoldSquashedHistory(entries, appliedRows, h);
    var applied := fold.applied;
    var errors := ValidateMigrationJournal(entries);
    errors := errors + fold.errors;
    var warnings := fold.warnings;
    if |fold.errors| > 0 {
      return MigrationPlan([], errors, warnings);
    }
    if |applied| == 0 {
      return MigrationPlan(Map(entries, TagOf), errors, warnings);
    }
    var lastApplied := MaxCreated(applied);
    var newestKnown := if |entries| > 0 then entries[|entries| - 1].when else 0;
    var scanned, changed := ScanJournal(entries, applied, lastApplied, previousHashes);
    errors, warnings := errors + scanned, warnings + changed;
    var unknown := Unknown(entries, applied);
    if lastApplied > newestKnown {
      errors := errors + [NewerDatabase(|NewerThan(unknown, newestKnown)|)];
    }
    var unknownOlder := NotNewerThan(unknown, newestKnown);
    if |unknownOlder| > 0 {
      warnings := warnings + [UnknownRows(Map(unknownOlder, CreatedAtOf))];
    }
    plan := MigrationPlan(Map(LaterThan(entries, lastApplied), TagOf), errors, warnings);
  }
}
