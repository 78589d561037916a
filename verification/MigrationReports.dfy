/** What a plan reports (src/db/migrationPlan.ts): each error and warning exactly when the journal and the rows call for it. */
module MigrationReports {
  import opened Decimals
  import opened MigrationPlan
  import opened MigrationPlanTheorems
  import opened Seqs

  // ---------------------------------------------------------------------------------------------
  // The journal's own errors

  /** Four digits of that value and an underscore. */
  predicate CarriesIndex(tag: string, idx: int) {
    |tag| >= 5 && AllDigits(tag[..4]) && tag[4] == '_' && ValueOf(tag[..4]) == idx
  }

  /** Entry `i` calls for the error. */
  predicate WrongAt(es: seq<JournalEntry>, i: int, e: PlanError) {
    0 <= i < |es| &&
    match e
    case WrongIndex(p, idx) => p == i && idx == es[i].idx && idx != i
    case WrongTag(idx, tag) => idx == es[i].idx && tag == es[i].tag && !CarriesIndex(tag, idx)
    case NotLater(tag, before) => i > 0 && tag == es[i].tag && before == es[i - 1].tag && es[i].when <= es[i - 1].when
    case _ => false
  }

  lemma {:induction false} JournalErrorsAre(es: seq<JournalEntry>, n: nat)
    requires n <= |es|
    ensures forall e :: e in ErrorsBefore(es, n) <==> exists i :: i < n && WrongAt(es, i, e)
  {
    if n > 0 {
      JournalErrorsAre(es, n - 1);
      EntryErrorsAre(es, n - 1);
      hide EntryErrors, WrongAt;
      forall e ensures e in ErrorsBefore(es, n) <==> exists i :: i < n && WrongAt(es, i, e) {
        assert e in ErrorsBefore(es, n) <==> e in ErrorsBefore(es, n - 1) || e in EntryErrors(es, n - 1);
      }
    } else {
      forall i, e | i < 0 ensures !WrongAt(es, i, e) {
      }
    }
  }

  lemma {:induction false} EntryErrorsAre(es: seq<JournalEntry>, i: nat)
    requires i < |es|
    ensures forall e :: e in EntryErrors(es, i) <==> WrongAt(es, i, e)
  {
    hide ValueOf, AllDigits;
  }

  // ---------------------------------------------------------------------------------------------
  // The rows

  /** The last row of its time. */
  predicate StandsFor(rows: seq<Row>, k: int, when: int) {
    0 <= k < |rows| && rows[k].createdAt == when && forall j :: k < j < |rows| ==> rows[j].createdAt != when
  }

  lemma {:induction false} RowAtIs(rows: seq<Row>, when: int)
    ensures forall k :: StandsFor(rows, k, when) ==> RowAt(rows, when) == Some(rows[k])
    ensures RowAt(rows, when).Some? ==> exists k :: StandsFor(rows, k, when)
  {
    if rows != [] {
      var n := |rows| - 1;
      RowAtIs(rows[..n], when);
      StandsInFront(rows, when);
      hide StandsFor;
    }
  }

  lemma {:induction false} StandsInFront(rows: seq<Row>, when: int)
    requires rows != []
    ensures var n := |rows| - 1;
            if rows[n].createdAt == when then forall k :: StandsFor(rows, k, when) <==> k == n
            else forall k :: StandsFor(rows, k, when) <==> StandsFor(rows[..n], k, when)
    ensures forall k :: 0 <= k < |rows| - 1 ==> rows[..|rows| - 1][k] == rows[k]
  {
  }

  /** The migrator skips the entry: a row is as late as it. */
  predicate Skipped(rows: seq<Row>, e: JournalEntry) { exists r :: r in rows && r.createdAt >= e.when }

  /** The row in place of the entry has another hash, and not one of an earlier text of it. */
  predicate TextDiffers(rows: seq<Row>, previous: Amendments, e: JournalEntry, k: int) {
    && StandsFor(rows, k, e.when) && rows[k].hash != e.hash
    && !(e.tag in previous && rows[k].hash in previous[e.tag])
  }

  ghost predicate EntryDiffers(rows: seq<Row>, previous: Amendments, e: JournalEntry) {
    Skipped(rows, e) && exists k :: TextDiffers(rows, previous, e, k)
  }

  lemma {:induction false} SkippedIff(rows: seq<Row>, e: JournalEntry)
    requires rows != []
    ensures e.when <= MaxCreated(rows) <==> Skipped(rows, e)
  {
    var m := MaxCreated(rows);
    assert HasRow(rows, m);
  }

  lemma {:induction false} ScanErrorsAre(es: seq<JournalEntry>, rows: seq<Row>)
    requires rows != []
    ensures forall x :: x in ScanErrors(es, rows, MaxCreated(rows))
                   <==> exists e :: e in es && Skipped(rows, e) && !HasRow(rows, e.when) && x == NeverApplied(e.tag)
  {
    if es != [] {
      var e, front := es[|es| - 1], es[..|es| - 1];
      ScanErrorsAre(front, rows);
      SkippedIff(rows, e);
      assert forall x :: x in es <==> x in front || x == e;
      hide Skipped, HasRow, MaxCreated;
      assert ScanErrors(es, rows, MaxCreated(rows)) == ScanErrors(front, rows, MaxCreated(rows))
             + (if Skipped(rows, e) && !HasRow(rows, e.when) then [NeverApplied(e.tag)] else []);
    }
  }

  lemma {:induction false} DiffersIff(rows: seq<Row>, previous: Amendments, e: JournalEntry)
    requires rows != []
    ensures EntryDiffers(rows, previous, e)
       <==> && e.when <= MaxCreated(rows) && RowAt(rows, e.when).Some? && RowAt(rows, e.when).value.hash != e.hash
            && RowAt(rows, e.when).value.hash !in Amended(previous, e.tag)
  {
    SkippedIff(rows, e);
    RowAtIs(rows, e.when);
    hide RowAt, StandsFor, Skipped, MaxCreated;
    forall k ensures TextDiffers(rows, previous, e, k)
                <==> StandsFor(rows, k, e.when) && RowAt(rows, e.when).value.hash != e.hash
                     && RowAt(rows, e.when).value.hash !in Amended(previous, e.tag)
    {
    }
  }

  lemma {:induction false} ScanWarningsAre(es: seq<JournalEntry>, rows: seq<Row>, previous: Amendments)
    requires rows != []
    ensures forall x :: x in ScanWarnings(es, rows, MaxCreated(rows), previous)
                   <==> exists e :: e in es && EntryDiffers(rows, previous, e) && x == TextChanged(e.tag)
  {
    if es != [] {
      var e, front := es[|es| - 1], es[..|es| - 1];
      ScanWarningsAre(front, rows, previous);
      DiffersIff(rows, previous, e);
      assert forall x :: x in es <==> x in front || x == e;
      hide EntryDiffers, RowAt, MaxCreated;
      assert ScanWarnings(es, rows, MaxCreated(rows), previous) == ScanWarnings(front, rows, MaxCreated(rows), previous)
             + (if EntryDiffers(rows, previous, e) then [TextChanged(e.tag)] else []);
    }
  }

  // ---------------------------------------------------------------------------------------------
  // The fold

  /** A row of the folded history whose text was never released. */
  predicate FoldedDiffers(h: History, r: Row, tag: string) {
    IsFolded(h, r.createdAt) && r.hash !in FoldedAt(h.migrations, r.createdAt).hashes && tag == FoldedAt(h.migrations, r.createdAt).tag
  }

  /** The rows of the folded history that are not the baseline's own. */
  ghost predicate TextWarning(h: History, olds: seq<Row>, x: PlanWarning) {
    exists r :: r in olds && x.TextChanged? && FoldedDiffers(h, r, x.tag)
  }

  lemma {:induction false} ChangedTextsAre(h: History, olds: seq<Row>)
    requires forall r :: r in olds ==> IsFolded(h, r.createdAt)
    ensures forall x :: x in ChangedTexts(h, olds) <==> TextWarning(h, olds, x)
  {
    if olds != [] {
      var r, rest := olds[0], olds[1..];
      ChangedTextsAre(h, rest);
      assert IsFolded(h, r.createdAt);
      hide IsFolded, FoldedAt;
      var m := FoldedAt(h.migrations, r.createdAt);
      var first: seq<PlanWarning> := if r.hash in m.hashes then [] else [TextChanged(m.tag)];
      assert ChangedTexts(h, olds) == first + ChangedTexts(h, rest);
      hide ChangedTexts;
      assert forall x :: x in first <==> x.TextChanged? && FoldedDiffers(h, r, x.tag);
      hide FoldedDiffers;
      assert forall y :: y in olds <==> y == r || y in rest;
      assert forall x :: TextWarning(h, olds, x) <==> (x.TextChanged? && FoldedDiffers(h, r, x.tag)) || TextWarning(h, rest, x);
    }
  }

  // ---------------------------------------------------------------------------------------------
  // The plan

  predicate NewerThanBuild(es: seq<JournalEntry>, r: Row) { forall e :: e in es ==> e.when < r.createdAt }

  /** The errors of a plan whose fold went through and left rows. */
  ghost predicate ErrorOf(es: seq<JournalEntry>, rows: seq<Row>, x: PlanError) {
    || (exists i :: WrongAt(es, i, x))
    || (exists e :: e in es && Skipped(rows, e) && !HasRow(rows, e.when) && x == NeverApplied(e.tag))
    || (exists r :: r in rows && r.createdAt > NewestKnown(es) && x == NewerDatabase(|Newer(es, rows)|))
  }

  /** The rows the journal does not know and that are newer than its last entry. */
  function Newer(es: seq<JournalEntry>, rows: seq<Row>): seq<Row> {
    Filter(rows, (r: Row) => r.createdAt > NewestKnown(es) && forall e :: e in es ==> e.when != r.createdAt)
  }

  function Older(es: seq<JournalEntry>, rows: seq<Row>): seq<Row> {
    Filter(rows, (r: Row) => r.createdAt <= NewestKnown(es) && forall e :: e in es ==> e.when != r.createdAt)
  }

  ghost predicate WarningOf(es: seq<JournalEntry>, rows: seq<Row>, previous: Amendments, x: PlanWarning) {
    || (exists e :: e in es && EntryDiffers(rows, previous, e) && x == TextChanged(e.tag))
    || (Older(es, rows) != [] && x == UnknownRows(Map(Older(es, rows), CreatedAtOf)))
  }

  lemma {:induction false} FilterBoth<T>(s: seq<T>, p: T -> bool, q: T -> bool, both: T -> bool)
    requires forall x :: both(x) <==> p(x) && q(x)
    ensures Filter(Filter(s, p), q) == Filter(s, both)
  {
    if s != [] {
      FilterBoth(s[1..], p, q, both);
      if p(s[0]) {
        assert Filter(s, p)[1..] == Filter(s[1..], p);
      }
    }
  }

  lemma {:induction false} UnknownAre(es: seq<JournalEntry>, rows: seq<Row>)
    ensures NewerThan(Unknown(es, rows), NewestKnown(es)) == Newer(es, rows)
    ensures NotNewerThan(Unknown(es, rows), NewestKnown(es)) == Older(es, rows)
  {
    hide NewestKnown;
    var n := NewestKnown(es);
    FilterBoth(rows, (r: Row) => !KnownWhen(es, r.createdAt), (r: Row) => r.createdAt > n,
               (r: Row) => r.createdAt > n && forall e :: e in es ==> e.when != r.createdAt);
    FilterBoth(rows, (r: Row) => !KnownWhen(es, r.createdAt), (r: Row) => r.createdAt <= n,
               (r: Row) => r.createdAt <= n && forall e :: e in es ==> e.when != r.createdAt);
  }

  lemma {:induction false} NewestIff(es: seq<JournalEntry>, rows: seq<Row>)
    requires rows != []
    ensures MaxCreated(rows) > NewestKnown(es) <==> exists r :: r in rows && r.createdAt > NewestKnown(es)
  {
    var m := MaxCreated(rows);
    assert HasRow(rows, m);
  }

  lemma {:induction false} PendingAre(es: seq<JournalEntry>, rows: seq<Row>)
    requires rows != []
    ensures LaterThan(es, MaxCreated(rows)) == Filter(es, (e: JournalEntry) => !Skipped(rows, e))
  {
    forall e | e in es ensures e.when > MaxCreated(rows) <==> !Skipped(rows, e) {
      SkippedIff(rows, e);
    }
    hide Skipped, MaxCreated;
    var last := MaxCreated(rows);
    FilterAgree(es, (e: JournalEntry) => e.when > last, (e: JournalEntry) => !Skipped(rows, e));
    FilterAgree(es, (e: JournalEntry) => e.when > last, (e: JournalEntry) => e.when > MaxCreated(rows));
  }

  /**
   * Of a table whose fold goes through and leaves rows: pending are the entries later than every row, and the plan has
   * exactly the errors and warnings that the journal and these rows call for, besides the warnings of the fold.
   */
  lemma {:induction false} PlanReportsIff(es: seq<JournalEntry>, rows: seq<Row>, previous: Amendments, squashed: Option<History>)
    requires Fold(es, rows, squashed).errors == [] && Fold(es, rows, squashed).applied != []
    ensures var fold, plan := Fold(es, rows, squashed), Plan(es, rows, previous, squashed);
            && plan.pending == Map(Filter(es, (e: JournalEntry) => !Skipped(fold.applied, e)), TagOf)
            && (forall x :: x in plan.errors <==> ErrorOf(es, fold.applied, x))
            && (forall x :: x in plan.warnings <==> x in fold.warnings || WarningOf(es, fold.applied, previous, x))
  {
    hide *;
    var fold := Fold(es, rows, squashed);
    var applied := fold.applied;
    PlanIs(es, rows, previous, squashed);
    PendingAre(es, applied);
    JournalErrorsAre(es, |es|);
    ScanErrorsAre(es, applied);
    ScanWarningsAre(es, applied, previous);
    NewestIff(es, applied);
    UnknownAre(es, applied);
    AreErrors(es, applied);
    AreWarnings(es, applied, previous);
  }

  lemma {:induction false} AreErrors(es: seq<JournalEntry>, rows: seq<Row>)
    requires rows != []
    requires forall x :: x in ErrorsBefore(es, |es|) <==> exists i :: i < |es| && WrongAt(es, i, x)
    requires forall x :: x in ScanErrors(es, rows, MaxCreated(rows))
                   <==> exists e :: e in es && Skipped(rows, e) && !HasRow(rows, e.when) && x == NeverApplied(e.tag)
    requires MaxCreated(rows) > NewestKnown(es) <==> exists r :: r in rows && r.createdAt > NewestKnown(es)
    ensures forall x :: ErrorOf(es, rows, x)
                   <==> || x in ErrorsBefore(es, |es|) || x in ScanErrors(es, rows, MaxCreated(rows))
                        || (MaxCreated(rows) > NewestKnown(es) && x == NewerDatabase(|Newer(es, rows)|))
  {
    hide ErrorsBefore, ScanErrors, Skipped, HasRow, MaxCreated, NewestKnown, Newer;
    forall i, x | WrongAt(es, i, x) ensures i < |es| {
    }
    hide WrongAt;
  }

  lemma {:induction false} AreWarnings(es: seq<JournalEntry>, rows: seq<Row>, previous: Amendments)
    requires rows != []
    requires forall x :: x in ScanWarnings(es, rows, MaxCreated(rows), previous)
                   <==> exists e :: e in es && EntryDiffers(rows, previous, e) && x == TextChanged(e.tag)
    ensures forall x :: WarningOf(es, rows, previous, x)
                   <==> || x in ScanWarnings(es, rows, MaxCreated(rows), previous)
                        || (Older(es, rows) != [] && x == UnknownRows(Map(Older(es, rows), CreatedAtOf)))
  {
    hide ScanWarnings, EntryDiffers, Older, MaxCreated;
  }

  lemma {:induction false} PlanIs(es: seq<JournalEntry>, rows: seq<Row>, previous: Amendments, squashed: Option<History>)
    requires Fold(es, rows, squashed).errors == [] && Fold(es, rows, squashed).applied != []
    ensures var fold, plan := Fold(es, rows, squashed), Plan(es, rows, previous, squashed);
            var last, unknown := MaxCreated(fold.applied), Unknown(es, fold.applied);
            var older, newest := NotNewerThan(unknown, NewestKnown(es)), NewestKnown(es);
            && plan.pending == Map(LaterThan(es, last), TagOf)
            && (forall x :: x in plan.errors
                       <==> || x in ErrorsBefore(es, |es|) || x in ScanErrors(es, fold.applied, last)
                            || (last > newest && x == NewerDatabase(|NewerThan(unknown, newest)|)))
            && (forall x :: x in plan.warnings
                       <==> || x in fold.warnings || x in ScanWarnings(es, fold.applied, last, previous)
                            || (older != [] && x == UnknownRows(Map(older, CreatedAtOf))))
  {
    hide Fold, MaxCreated, Unknown, NotNewerThan, NewerThan, NewestKnown, LaterThan, ErrorsBefore, ScanErrors, ScanWarnings, Map;
    var fold, plan := Fold(es, rows, squashed), Plan(es, rows, previous, squashed);
    assert [] + fold.errors == fold.errors;
    assert ErrorsBefore(es, |es|) + fold.errors == ErrorsBefore(es, |es|);
  }

  // ---------------------------------------------------------------------------------------------
  // The fold's report

  /** The migrator's history stands in the table: a row at a folded time that is not the baseline's own. */
  predicate OfHistory(h: History, baseline: JournalEntry, rows: seq<Row>, r: Row) {
    && IsFolded(h, r.createdAt)
    && (r.createdAt == baseline.when ==>
          && r.hash != baseline.hash
          && ((exists x :: x in rows && IsFolded(h, x.createdAt) && x.createdAt != baseline.when)
              || r.hash in FoldedAt(h.migrations, r.createdAt).hashes))
  }

  /**
   * A fold with a baseline in the journal replaces the rows of the history by the baseline's, warns of each whose text
   * was never released, and refuses the table when a folded migration has none, naming how many ran and the first one missing.
   */
  lemma {:induction false} FoldReports(es: seq<JournalEntry>, rows: seq<Row>, h: History)
    requires FindTag(es, h.baselineTag).Some?
    ensures var baseline, fold := FindTag(es, h.baselineTag).value, FoldSquashedHistory(es, rows, h);
            var olds := Filter(rows, (r: Row) => OfHistory(h, baseline, rows, r));
            var missing := Filter(h.migrations, (m: Folded) => forall r :: r in olds ==> r.createdAt != m.when);
            if olds == [] then fold == FoldResult(rows, [], [])
            else
              && fold.applied == Filter(rows, (r: Row) => !OfHistory(h, baseline, rows, r)) + [Row(baseline.hash, baseline.when)]
              && fold.errors == (if missing == [] then [] else [PartlyFolded(|olds|, missing[0].tag)])
              && forall x :: x in fold.warnings <==> TextWarning(h, olds, x)
  {
    var baseline := FindTag(es, h.baselineTag).value;
    var ran := RanFolded(h, Some(baseline), rows);
    forall r | r in rows ensures IsOldRow(h, Some(baseline), ran, r) <==> OfHistory(h, baseline, rows, r) {
      hide FoldedAt;
    }
    hide FindTag, IsOldRow, OfHistory, RanFolded;
    FilterAgree(rows, (r: Row) => IsOldRow(h, Some(baseline), ran, r), (r: Row) => OfHistory(h, baseline, rows, r));
    FilterAgree(rows, (r: Row) => !IsOldRow(h, Some(baseline), ran, r), (r: Row) => !OfHistory(h, baseline, rows, r));
    var olds := Filter(rows, (r: Row) => OfHistory(h, baseline, rows, r));
    OldsAre(h, baseline, rows, ran);
    FilterAgree(h.migrations, (m: Folded) => !HasRow(olds, m.when), (m: Folded) => forall r :: r in olds ==> r.createdAt != m.when);
    if olds != [] {
      OldsAreFolded(h, baseline, rows);
      ChangedTextsAre(h, olds);
    }
  }

  lemma {:induction false} OldsAre(h: History, baseline: JournalEntry, rows: seq<Row>, ran: bool)
    requires ran == RanFolded(h, Some(baseline), rows)
    ensures OldRows(h, Some(baseline), rows) == Filter(rows, (r: Row) => IsOldRow(h, Some(baseline), ran, r))
    ensures RestRows(h, Some(baseline), rows) == Filter(rows, (r: Row) => !IsOldRow(h, Some(baseline), ran, r))
  {
    hide IsOldRow, RanFolded;
  }

  lemma {:induction false} OldsAreFolded(h: History, baseline: JournalEntry, rows: seq<Row>)
    ensures forall r :: r in Filter(rows, (r: Row) => OfHistory(h, baseline, rows, r)) ==> IsFolded(h, r.createdAt)
  {
    hide FoldedAt, IsFolded;
  }
}
