/** What the migration planner promises about the Drizzle migrator that runs after it. */
module MigrationPlanTheorems {
  import opened MigrationPlan
  import opened Seqs

  // ---------------------------------------------------------------------------------------------
  // The Drizzle migrator, a trusted atomic step: it runs every entry whose `when` is greater than the
  // greatest `created_at` and appends its row.

  function RowOf(e: JournalEntry): Row { Row(e.hash, e.when) }

  function DrizzleRuns(es: seq<JournalEntry>, rows: seq<Row>): seq<JournalEntry> {
    if rows == [] then es else LaterThan(es, MaxCreated(rows))
  }

  function Drizzle(es: seq<JournalEntry>, rows: seq<Row>): seq<Row> {
    rows + Map(DrizzleRuns(es, rows), RowOf)
  }

  // ---------------------------------------------------------------------------------------------
  // Basic facts

  lemma {:induction false} MaxIs(rows: seq<Row>, m: int)
    requires HasRow(rows, m) && forall r :: r in rows ==> r.createdAt <= m
    ensures rows != [] && MaxCreated(rows) == m
  {
    var r :| r in rows && r.createdAt == m;
    var x := MaxCreated(rows);
    assert HasRow(rows, x);
  }

  lemma {:induction false} ScanErrorsEmptyIff(es: seq<JournalEntry>, rows: seq<Row>, last: int)
    ensures ScanErrors(es, rows, last) == []
       <==> forall i :: 0 <= i < |es| && es[i].when <= last ==> HasRow(rows, es[i].when)
  {
    if es != [] {
      var front := es[..|es| - 1];
      ScanErrorsEmptyIff(front, rows, last);
      assert forall i :: 0 <= i < |front| ==> front[i] == es[i];
    }
  }

  /** Number of entries of a valid journal that are not later than `last`. */
  function Reached(es: seq<JournalEntry>, last: int): (k: nat)
    ensures k <= |es|
  {
    FindFrom(es, (e: JournalEntry) => e.when > last, 0)
  }

  lemma {:induction false} LaterIsSuffix(es: seq<JournalEntry>, last: int)
    requires ValidJournal(es)
    ensures LaterThan(es, last) == es[Reached(es, last)..]
    ensures forall i :: 0 <= i < |es| ==> (es[i].when <= last <==> i < Reached(es, last))
  {
    var k := Reached(es, last);
    forall i | 0 <= i < |es| ensures es[i].when <= last <==> i < k {
      if i > k {
        WhensIncrease(es, k, i);
      }
    }
    LaterFrom(es, last, k);
  }

  lemma {:induction false} LaterFrom(es: seq<JournalEntry>, last: int, k: nat)
    requires k <= |es| && forall i :: 0 <= i < |es| ==> (es[i].when <= last <==> i < k)
    ensures LaterThan(es, last) == es[k..]
  {
    var later := (e: JournalEntry) => e.when > last;
    assert es[..k] + es[k..] == es;
    FilterAppend(es[..k], es[k..], later);
    FilterNone(es[..k], later);
    FilterAll(es[k..], later);
  }

  /** Number of journal entries the (folded) table already holds. */
  function AppliedCount(es: seq<JournalEntry>, rows: seq<Row>, squashed: Option<History>): nat {
    var applied := Fold(es, rows, squashed).applied;
    if applied == [] then 0 else Reached(es, MaxCreated(applied))
  }

  predicate Accepts(es: seq<JournalEntry>, rows: seq<Row>, squashed: Option<History>) {
    var fold := Fold(es, rows, squashed);
    && ValidJournal(es)
    && fold.errors == []
    && (fold.applied != [] ==>
          && MaxCreated(fold.applied) <= NewestKnown(es)
          && forall i :: 0 <= i < |es| && es[i].when <= MaxCreated(fold.applied) ==> HasRow(fold.applied, es[i].when))
  }

  /** The plan has no error exactly when every entry the migrator would skip has been applied. */
  lemma {:induction false} PlanAcceptsIff(es: seq<JournalEntry>, rows: seq<Row>, previous: Amendments,
                                          squashed: Option<History>)
    ensures Plan(es, rows, previous, squashed).errors == [] <==> Accepts(es, rows, squashed)
  {
    JournalErrorsEmptyIff(es, |es|);
    var fold := Fold(es, rows, squashed);
    if fold.applied != [] {
      ScanErrorsEmptyIff(es, fold.applied, MaxCreated(fold.applied));
    }
  }

  // ---------------------------------------------------------------------------------------------
  // Soundness and completeness of the plan

  /** Without errors, pending is a suffix of the journal and holds exactly the entries that have no row. */
  lemma {:induction false} PlanIsExact(es: seq<JournalEntry>, rows: seq<Row>, previous: Amendments,
                                       squashed: Option<History>)
    requires Plan(es, rows, previous, squashed).errors == []
    ensures var k := AppliedCount(es, rows, squashed);
            var applied := Fold(es, rows, squashed).applied;
            && k <= |es|
            && Plan(es, rows, previous, squashed).pending == Map(es[k..], TagOf)
            && forall i :: 0 <= i < |es| ==> (HasRow(applied, es[i].when) <==> i < k)
  {
    PlanAcceptsIff(es, rows, previous, squashed);
    var applied := Fold(es, rows, squashed).applied;
    if applied != [] {
      LaterIsSuffix(es, MaxCreated(applied));
      var k := Reached(es, MaxCreated(applied));
      forall i | k <= i < |es| ensures !HasRow(applied, es[i].when) {
      }
    } else {
      assert es[0..] == es;
    }
  }

  /** A database that holds any prefix of a valid journal is never refused: the rest is pending. */
  lemma {:induction false} PrefixNeverRefused(es: seq<JournalEntry>, rows: seq<Row>, previous: Amendments,
                                              squashed: Option<History>)
    requires ValidJournal(es) && |rows| <= |es|
    requires forall i :: 0 <= i < |rows| ==> rows[i].createdAt == es[i].when
    requires squashed.Some? ==> CarriesHistory(es, squashed.value)
    requires squashed.Some? && rows != [] ==>
               rows[0].hash == es[0].hash || rows[0].hash !in FoldedAt(squashed.value.migrations, es[0].when).hashes
    ensures Plan(es, rows, previous, squashed).errors == []
    ensures Plan(es, rows, previous, squashed).pending == Map(es[|rows|..], TagOf)
  {
    if squashed.Some? {
      PrefixIsNotFolded(es, rows, squashed.value);
    }
    hide FoldSquashedHistory, LaterThan;
    if rows == [] {
      assert es[0..] == es;
    } else {
      PrefixRows(es, rows);
      assert NewestKnown(es) == es[|es| - 1].when;
    }
    PlanAcceptsIff(es, rows, previous, squashed);
  }

  lemma {:induction false} PrefixRows(es: seq<JournalEntry>, rows: seq<Row>)
    requires ValidJournal(es) && 1 <= |rows| <= |es|
    requires forall i :: 0 <= i < |rows| ==> rows[i].createdAt == es[i].when
    ensures MaxCreated(rows) == es[|rows| - 1].when <= es[|es| - 1].when
    ensures forall i :: 0 <= i < |rows| ==> HasRow(rows, es[i].when)
    ensures forall i :: 0 <= i < |es| ==> (es[i].when <= MaxCreated(rows) <==> i < |rows|)
    ensures LaterThan(es, MaxCreated(rows)) == es[|rows|..]
  {
    var last := es[|rows| - 1].when;
    assert rows[|rows| - 1].createdAt == last && rows[|rows| - 1] in rows;
    forall i | 0 <= i < |es| ensures es[i].when <= last <==> i < |rows| {
      if i < |rows| - 1 {
        WhensIncrease(es, i, |rows| - 1);
      } else if i > |rows| - 1 {
        WhensIncrease(es, |rows| - 1, i);
      }
    }
    forall i | 0 <= i < |rows| ensures HasRow(rows, es[i].when) {
      assert rows[i] in rows;
    }
    if |rows| < |es| {
      WhensIncrease(es, |rows| - 1, |es| - 1);
    }
    MaxIs(rows, last);
    LaterFrom(es, last, |rows|);
  }

  // ---------------------------------------------------------------------------------------------
  // Folding

  /** The repository's own rule for a squashed history (src/tests/vitest/migrationPlan.test.ts:153-173). */
  predicate CarriesHistory(es: seq<JournalEntry>, h: History) {
    && es != [] && es[0].tag == h.baselineTag
    && IsFolded(h, es[0].when)
    && (forall m :: m in h.migrations ==> m.when <= es[0].when)
    && (forall i :: 1 <= i < |es| ==> !IsFolded(h, es[i].when))
  }

  lemma {:induction false} PrefixIsNotFolded(es: seq<JournalEntry>, rows: seq<Row>, h: History)
    requires |rows| <= |es| && CarriesHistory(es, h)
    requires forall i :: 0 <= i < |rows| ==> rows[i].createdAt == es[i].when
    requires rows != [] ==>
               rows[0].hash == es[0].hash || rows[0].hash !in FoldedAt(h.migrations, es[0].when).hashes
    ensures FoldSquashedHistory(es, rows, h) == FoldResult(rows, [], [])
  {
    var baseline := FindTag(es, h.baselineTag);
    assert baseline == Some(es[0]);
    assert !RanFolded(h, baseline, rows);
    FilterNone(rows, (r: Row) => IsOldRow(h, baseline, false, r));
    FilterAgree(rows, (r: Row) => IsOldRow(h, baseline, false, r), (r: Row) => IsOldRow(h, baseline, RanFolded(h, baseline, rows), r));
  }

  /** The baseline stands at the newest folded time. */
  predicate BaselineIsNewest(es: seq<JournalEntry>, h: History) {
    match FindTag(es, h.baselineTag)
    case None => true
    case Some(b) => IsFolded(h, b.when) && forall m :: m in h.migrations ==> m.when <= b.when
  }

  lemma {:induction false} CarriedBaseline(es: seq<JournalEntry>, h: History)
    requires CarriesHistory(es, h)
    ensures FindTag(es, h.baselineTag) == Some(es[0]) && BaselineIsNewest(es, h)
  {
  }

  lemma {:induction false} OldOrRest(h: History, baseline: Option<JournalEntry>, rows: seq<Row>, r: Row)
    requires r in rows
    ensures r in OldRows(h, baseline, rows) <==> !(r in RestRows(h, baseline, rows))
  {
  }

  lemma {:induction false} MissingNone(h: History, rows: seq<Row>, when: int)
    requires Filter(h.migrations, (m: Folded) => !HasRow(rows, m.when)) == [] && IsFolded(h, when)
    ensures HasRow(rows, when)
  {
    var m :| m in h.migrations && m.when == when;
    var missing := Filter(h.migrations, (m: Folded) => !HasRow(rows, m.when));
    assert m !in missing;
  }

  /** Folding that raises no error leaves the greatest `created_at` alone, so the migrator runs the same entries. */
  lemma {:induction false} FoldKeepsMaximum(es: seq<JournalEntry>, rows: seq<Row>, h: History)
    requires BaselineIsNewest(es, h) && FoldSquashedHistory(es, rows, h).errors == []
    ensures var applied := FoldSquashedHistory(es, rows, h).applied;
            && (applied == [] <==> rows == [])
            && (rows != [] ==> MaxCreated(applied) == MaxCreated(rows))
  {
    var baseline := FindTag(es, h.baselineTag);
    var olds := OldRows(h, baseline, rows);
    if olds != [] && baseline.Some? {
      var b := baseline.value;
      var rest := RestRows(h, baseline, rows);
      var applied := rest + [Row(b.hash, b.when)];
      assert FoldSquashedHistory(es, rows, h).applied == applied;
      MissingNone(h, olds, b.when);
      var newest :| newest in olds && newest.createdAt == b.when;
      var top := MaxCreated(rows);
      var r :| r in rows && r.createdAt == top;
      OldOrRest(h, baseline, rows, r);
      if r in olds {
        assert IsFolded(h, top);
        assert Row(b.hash, b.when) in applied;
      } else {
        assert r in applied;
      }
      assert HasRow(applied, top);
      MaxIs(applied, top);
    }
  }

  /** The pending list is exactly what the migrator, which reads the unfolded table, will run. */
  lemma {:induction false} DrizzleRunsThePlan(es: seq<JournalEntry>, rows: seq<Row>, previous: Amendments,
                                              squashed: Option<History>)
    requires squashed.Some? ==> BaselineIsNewest(es, squashed.value)
    requires Fold(es, rows, squashed).errors == []
    ensures Map(DrizzleRuns(es, rows), TagOf) == Plan(es, rows, previous, squashed).pending
  {
    if squashed.Some? {
      FoldKeepsMaximum(es, rows, squashed.value);
    }
  }

  /** Folding a folded table changes nothing and raises nothing. */
  lemma {:induction false} FoldIsIdempotent(es: seq<JournalEntry>, rows: seq<Row>, h: History)
    ensures var applied := FoldSquashedHistory(es, rows, h).applied;
            FoldSquashedHistory(es, applied, h) == FoldResult(applied, [], [])
  {
    var baseline := FindTag(es, h.baselineTag);
    var olds := OldRows(h, baseline, rows);
    if olds != [] && baseline.Some? {
      var b := baseline.value;
      var ran := RanFolded(h, baseline, rows);
      var rest := RestRows(h, baseline, rows);
      var applied := rest + [Row(b.hash, b.when)];
      forall r | r in applied ensures !IsFolded(h, r.createdAt) || IsBaselineRow(h, baseline, false, r) {
        if r in rest {
          assert !IsOldRow(h, baseline, ran, r);
        }
      }
      assert !RanFolded(h, baseline, applied);
      FilterNone(applied, (r: Row) => IsOldRow(h, baseline, false, r));
    }
  }

  function Unrelated(h: History, rows: seq<Row>): seq<Row> { Filter(rows, (r: Row) => !IsFolded(h, r.createdAt)) }

  /** Folding keeps every row that is not of the folded history, in order. */
  lemma {:induction false} FoldKeepsUnrelatedRows(es: seq<JournalEntry>, rows: seq<Row>, h: History)
    requires BaselineIsNewest(es, h)
    ensures Unrelated(h, FoldSquashedHistory(es, rows, h).applied) == Unrelated(h, rows)
  {
    var baseline := FindTag(es, h.baselineTag);
    var olds := OldRows(h, baseline, rows);
    if olds != [] && baseline.Some? {
      var b := baseline.value;
      var ran := RanFolded(h, baseline, rows);
      var unrelated := (r: Row) => !IsFolded(h, r.createdAt);
      var keep := (r: Row) => !IsOldRow(h, baseline, ran, r);
      FilterFilter(rows, keep, unrelated);
      FilterAgree(rows, keep, (r: Row) => !IsOldRow(h, baseline, ran, r));
      assert RestRows(h, baseline, rows) == Filter(rows, keep);
      FilterAppend(RestRows(h, baseline, rows), [Row(b.hash, b.when)], unrelated);
    }
  }

  /**
   * When every row at a folded time carries a released hash and the baseline's hash is none of them, a table is
   * refused, with nothing pending, exactly when it ran some of the folded migrations and not all.
   */
  lemma {:induction false} PartialHistoryRefusedIff(es: seq<JournalEntry>, rows: seq<Row>, previous: Amendments,
                                                    h: History)
    requires FindTag(es, h.baselineTag).Some?
    requires forall r :: r in rows && IsFolded(h, r.createdAt) ==>
               && r.hash in FoldedAt(h.migrations, r.createdAt).hashes
               && r.hash != FindTag(es, h.baselineTag).value.hash
    ensures FoldSquashedHistory(es, rows, h).errors != []
       <==> && (exists m :: m in h.migrations && HasRow(rows, m.when))
            && (exists m :: m in h.migrations && !HasRow(rows, m.when))
    ensures FoldSquashedHistory(es, rows, h).errors != [] ==>
              && Plan(es, rows, previous, Some(h)).pending == []
              && Plan(es, rows, previous, Some(h)).errors != []
  {
    var baseline := FindTag(es, h.baselineTag);
    var olds := OldRows(h, baseline, rows);
    forall r | r in rows ensures r in olds <==> IsFolded(h, r.createdAt) {
    }
    forall m | m in h.migrations ensures HasRow(olds, m.when) <==> HasRow(rows, m.when) {
      assert IsFolded(h, m.when);
    }
    if exists m :: m in h.migrations && HasRow(rows, m.when) {
      var m :| m in h.migrations && HasRow(rows, m.when);
      assert HasRow(olds, m.when);
      assert olds != [];
    }
    assert olds != [] ==> olds[0] in olds && IsFolded(h, olds[0].createdAt) && HasRow(rows, olds[0].createdAt);
    var missing := Filter(h.migrations, (m: Folded) => !HasRow(olds, m.when));
    assert missing != [] <==> exists m :: m in h.migrations && !HasRow(rows, m.when) by {
      if missing != [] {
        assert missing[0] in missing;
      }
    }
  }

  // ---------------------------------------------------------------------------------------------
  // Running the plan

  /** New rows that are not of the folded history, or are the baseline's own, do not change what folding sees. */
  lemma {:induction false} FoldAppend(es: seq<JournalEntry>, rows: seq<Row>, more: seq<Row>, h: History)
    requires forall r :: r in more && IsFolded(h, r.createdAt) ==>
               FindTag(es, h.baselineTag).Some? && r == RowOf(FindTag(es, h.baselineTag).value)
    ensures FoldSquashedHistory(es, rows + more, h).errors == FoldSquashedHistory(es, rows, h).errors
    ensures forall w :: HasRow(FoldSquashedHistory(es, rows + more, h).applied, w)
                   <==> HasRow(FoldSquashedHistory(es, rows, h).applied, w) || HasRow(more, w)
  {
    var baseline := FindTag(es, h.baselineTag);
    var ran := RanFolded(h, baseline, rows);
    assert RanFolded(h, baseline, rows + more) == ran by {
      if RanFolded(h, baseline, rows + more) {
        var r :| r in rows + more && IsFolded(h, r.createdAt)
              && !(baseline.Some? && r.createdAt == baseline.value.when);
        assert r in rows;
      }
      if ran {
        var r :| r in rows && IsFolded(h, r.createdAt) && !(baseline.Some? && r.createdAt == baseline.value.when);
        assert r in rows + more;
      }
    }
    var isOld := (r: Row) => IsOldRow(h, baseline, ran, r);
    var isRest := (r: Row) => !IsOldRow(h, baseline, ran, r);
    FilterAppend(rows, more, isOld);
    FilterAppend(rows, more, isRest);
    FilterNone(more, isOld);
    FilterAll(more, isRest);
    FilterAgree(rows + more, isOld, (r: Row) => IsOldRow(h, baseline, ran, r));
    FilterAgree(rows + more, isRest, (r: Row) => !IsOldRow(h, baseline, ran, r));
    assert OldRows(h, baseline, rows + more) == OldRows(h, baseline, rows);
    assert RestRows(h, baseline, rows + more) == RestRows(h, baseline, rows) + more;
    var before := FoldSquashedHistory(es, rows, h).applied;
    var after := FoldSquashedHistory(es, rows + more, h).applied;
    assert forall r :: r in after <==> r in before || r in more;
  }

  lemma {:induction false} DrizzleMakes(es: seq<JournalEntry>, rows: seq<Row>, k: nat)
    requires k <= |es| && DrizzleRuns(es, rows) == es[k..]
    ensures forall i :: k <= i < |es| ==> HasRow(Map(es[k..], RowOf), es[i].when)
    ensures forall r :: r in Map(es[k..], RowOf) ==> exists i :: k <= i < |es| && r == RowOf(es[i])
    ensures Drizzle(es, rows) == rows + Map(es[k..], RowOf)
  {
    var more := Map(es[k..], RowOf);
    forall i | k <= i < |es| ensures HasRow(more, es[i].when) {
      assert more[i - k] == RowOf(es[i]);
      assert more[i - k] in more;
    }
    forall r | r in more ensures exists i :: k <= i < |es| && r == RowOf(es[i]) {
      var j :| 0 <= j < |more| && more[j] == r;
      assert r == RowOf(es[k + j]);
    }
  }

  /**
   * The migrator run on an accepted table appends the rows of exactly the pending entries, in journal order, and
   * leaves a table on which the next plan has no error and nothing pending.
   */
  lemma {:induction false} RunThenReplan(es: seq<JournalEntry>, rows: seq<Row>, previous: Amendments,
                                         squashed: Option<History>)
    requires squashed.Some? && es != [] ==> CarriesHistory(es, squashed.value)
    requires Plan(es, rows, previous, squashed).errors == []
    ensures var k := AppliedCount(es, rows, squashed);
            k <= |es| && Drizzle(es, rows) == rows + Map(es[k..], RowOf)
    ensures Plan(es, Drizzle(es, rows), previous, squashed).errors == []
    ensures Plan(es, Drizzle(es, rows), previous, squashed).pending == []
    ensures AppliedCount(es, Drizzle(es, rows), squashed) == |es|
  {
    var k := AppliedCount(es, rows, squashed);
    PlanAcceptsIff(es, rows, previous, squashed);
    PlanIsExact(es, rows, previous, squashed);
    if squashed.Some? && es != [] {
      FoldKeepsMaximum(es, rows, squashed.value);
    }
    var fold := Fold(es, rows, squashed);
    if es == [] {
      assert fold == FoldResult(rows, [], []);
    } else if fold.applied == [] {
      assert es[0..] == es;
    } else {
      LaterIsSuffix(es, MaxCreated(fold.applied));
    }
    assert DrizzleRuns(es, rows) == es[k..];
    DrizzleMakes(es, rows, k);
    if k == |es| {
      assert Drizzle(es, rows) == rows;
    } else {
      AfterRun(es, rows, squashed, k);
      PlanAcceptsIff(es, Drizzle(es, rows), previous, squashed);
      LaterIsSuffix(es, es[|es| - 1].when);
    }
  }

  lemma {:induction false} AfterRun(es: seq<JournalEntry>, rows: seq<Row>, squashed: Option<History>, k: nat)
    requires ValidJournal(es) && k < |es| && Drizzle(es, rows) == rows + Map(es[k..], RowOf)
    requires squashed.Some? ==> CarriesHistory(es, squashed.value)
    requires Accepts(es, rows, squashed)
    requires forall i :: 0 <= i < k ==> HasRow(Fold(es, rows, squashed).applied, es[i].when)
    requires DrizzleRuns(es, rows) == es[k..]
    ensures Accepts(es, Drizzle(es, rows), squashed)
    ensures var applied := Fold(es, Drizzle(es, rows), squashed).applied;
            applied != [] && MaxCreated(applied) == es[|es| - 1].when
  {
    DrizzleMakes(es, rows, k);
    FoldRunRows(es, rows, squashed, k);
    MergedRows(es, Fold(es, rows, squashed).applied, Fold(es, rows + Map(es[k..], RowOf), squashed).applied, k);
  }

  lemma {:induction false} MergedRows(es: seq<JournalEntry>, before: seq<Row>, after: seq<Row>, k: nat)
    requires ValidJournal(es) && k < |es|
    requires before != [] ==> MaxCreated(before) <= es[|es| - 1].when
    requires forall i :: 0 <= i < k ==> HasRow(before, es[i].when)
    requires forall w :: HasRow(after, w) <==> HasRow(before, w) || HasRow(Map(es[k..], RowOf), w)
    ensures after != [] && MaxCreated(after) == es[|es| - 1].when
    ensures forall i :: 0 <= i < |es| ==> HasRow(after, es[i].when)
  {
    hide ValidJournal;
    var more := Map(es[k..], RowOf);
    var top := es[|es| - 1].when;
    forall i | k <= i < |es| ensures HasRow(more, es[i].when) {
      assert more[i - k] in more && more[i - k].createdAt == es[i].when;
    }
    forall r | r in after ensures r.createdAt <= top {
      assert HasRow(after, r.createdAt);
      if HasRow(before, r.createdAt) {
        assert before != [] && r.createdAt <= MaxCreated(before) <= top;
      } else {
        var x :| x in more && x.createdAt == r.createdAt;
        var j :| 0 <= j < |more| && more[j] == x;
        assert x == RowOf(es[k + j]);
        if k + j < |es| - 1 {
          WhensIncrease(es, k + j, |es| - 1);
        }
      }
    }
    MaxIs(after, top);
  }

  lemma {:induction false} FoldRunRows(es: seq<JournalEntry>, rows: seq<Row>, squashed: Option<History>, k: nat)
    requires k < |es| && (squashed.Some? ==> CarriesHistory(es, squashed.value))
    ensures var more := Map(es[k..], RowOf);
            && Fold(es, rows + more, squashed).errors == Fold(es, rows, squashed).errors
            && forall w :: HasRow(Fold(es, rows + more, squashed).applied, w)
                      <==> HasRow(Fold(es, rows, squashed).applied, w) || HasRow(more, w)
  {
    var more := Map(es[k..], RowOf);
    if squashed.Some? {
      var h := squashed.value;
      assert FindTag(es, h.baselineTag) == Some(es[0]);
      forall r | r in more && IsFolded(h, r.createdAt) ensures r == RowOf(es[0]) {
        var j :| 0 <= j < |more| && more[j] == r;
        assert r == RowOf(es[k + j]);
      }
      FoldAppend(es, rows, more, h);
    } else {
      assert forall w :: HasRow(rows + more, w) <==> HasRow(rows, w) || HasRow(more, w);
    }
  }
}
