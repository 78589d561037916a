/**
 * `runMigrations` (src/db/migrator.ts) as a step system: any number of processes, possibly of different builds,
 * start together and interleave their queries in any order. A query that waits, fails or never comes back, a
 * process that dies and a lock that is not given back are steps of their own.
 */
module Migrator {
  import opened MigrationPlan
  import opened MigrationPlanTheorems
  import opened Seqs

  datatype Outcome =
    | Refused(errors: seq<PlanError>, read: nat)
    | Succeeded(before: nat, after: nat)
    | Failed

  datatype Phase =
    | Idle
    | Waiting                                     // in pg_advisory_lock
    | Granted                                     // lock held, RESET lock_timeout outstanding, `locked` still false
    | Locked
    | HasRead(applied: seq<Row>)
    | Planned(applied: seq<Row>, plan: MigrationPlan)
    | Migrated(before: nat)
    | Finishing(outcome: Outcome, locked: bool)   // in the `finally` block
    | Done(outcome: Outcome)
    | Dead

  /** `ran`: this process has run the Drizzle migrator. `leaked`: its session keeps a lock the run did not give back. */
  datatype Process = Process(build: seq<JournalEntry>, amended: Amendments, phase: Phase, ran: bool, leaked: bool)

  datatype State = State(table: seq<Row>, holder: Option<nat>, procs: seq<Process>)

  /** `newest` is the journal every build's journal is a prefix of; `initial` the table before the first start. */
  datatype Config = Config(newest: seq<JournalEntry>, squashed: Option<History>, initial: seq<Row>)

  datatype Action =
    | Connect            // read the journal of the build, take a connection
    | Acquire            // pg_advisory_lock returns
    | AcquireFails       // lock_timeout or another error
    | ResetTimeout       // RESET lock_timeout, then `locked = true`
    | ResetFails         // the RESET throws: the lock is held but `locked` stays false
    | ReadApplied
    | MakePlan
    | RunDrizzle
    | CountApplied
    | QueryThrows        // a read or the migrator throws; the migrator's transaction is rolled back
    | Release            // the `finally` block
    | ReleaseFails       // pg_advisory_unlock throws; the error is swallowed
    | SessionEnds        // PostgreSQL drops the session's lock
    | Crash

  datatype Step = Step(pid: nat, action: Action)

  predicate Enabled(s: State, step: Step) {
    && step.pid < |s.procs|
    && var ph := s.procs[step.pid].phase;
       match step.action
       case Connect => ph.Idle?
       case Acquire => ph.Waiting? && s.holder.None?
       case AcquireFails => ph.Waiting?
       case ResetTimeout => ph.Granted?
       case ResetFails => ph.Granted?
       case ReadApplied => ph.Locked?
       case MakePlan => ph.HasRead?
       case RunDrizzle => ph.Planned?
       case CountApplied => ph.Migrated?
       case QueryThrows => ph.Idle? || ph.Locked? || ph.Planned? || ph.Migrated?
       case Release => ph.Finishing?
       case ReleaseFails => ph.Finishing? && ph.locked
       case SessionEnds => ph.Done?
       case Crash => !ph.Dead?
  }

  function SetProc(s: State, pid: nat, p: Process): State
    requires pid < |s.procs|
  {
    s.(procs := s.procs[pid := p])
  }

  function FreeLock(s: State, pid: nat): State {
    if s.holder == Some(pid) then s.(holder := None) else s
  }

  function Apply(c: Config, s: State, step: Step): State
    requires Enabled(s, step)
  {
    var pid := step.pid;
    var p := s.procs[pid];
    var ph := p.phase;
    match step.action
    case Connect => SetProc(s, pid, p.(phase := Waiting))
    case Acquire => SetProc(s, pid, p.(phase := Granted)).(holder := Some(pid))
    case AcquireFails => SetProc(s, pid, p.(phase := Finishing(Failed, false)))
    case ResetTimeout => SetProc(s, pid, p.(phase := Locked))
    case ResetFails => SetProc(s, pid, p.(phase := Finishing(Failed, false), leaked := true))
    case ReadApplied => SetProc(s, pid, p.(phase := HasRead(s.table)))
    case MakePlan =>
      var plan := Plan(p.build, ph.applied, p.amended, c.squashed);
      SetProc(s, pid, p.(phase := if plan.errors != [] then Finishing(Refused(plan.errors, |ph.applied|), true)
                                  else Planned(ph.applied, plan)))
    case RunDrizzle =>
      SetProc(s, pid, p.(phase := Migrated(|ph.applied|), ran := true)).(table := Drizzle(p.build, s.table))
    case CountApplied => SetProc(s, pid, p.(phase := Finishing(Succeeded(ph.before, |s.table|), true)))
    case QueryThrows => SetProc(s, pid, p.(phase := Finishing(Failed, !ph.Idle?)))
    case Release =>
      var next := SetProc(s, pid, p.(phase := Done(ph.outcome)));
      if ph.locked then FreeLock(next, pid) else next
    case ReleaseFails => SetProc(s, pid, p.(phase := Done(ph.outcome), leaked := true))
    case SessionEnds => FreeLock(SetProc(s, pid, p.(leaked := false)), pid)
    case Crash => FreeLock(SetProc(s, pid, p.(phase := Dead, leaked := false)), pid)
  }

  // ---------------------------------------------------------------------------------------------
  // Runs

  predicate IsBuild(c: Config, build: seq<JournalEntry>) {
    1 <= |build| <= |c.newest| && build == c.newest[..|build|]
  }

  /** Number of journal entries the table holds. */
  function Count(c: Config, table: seq<Row>): nat { AppliedCount(c.newest, table, c.squashed) }

  /** The rows reach exactly as far as the first `k` entries, each of which has a row. */
  predicate HoldsPrefix(es: seq<JournalEntry>, rows: seq<Row>, k: nat) {
    && k <= |es|
    && (rows == [] <==> k == 0)
    && (k > 0 ==> MaxCreated(rows) == es[k - 1].when)
    && forall i :: 0 <= i < k ==> HasRow(rows, es[i].when)
  }

  /** A table the newest build accepts and whose newest row is the row of a journal entry. */
  predicate GoodTable(c: Config, table: seq<Row>) {
    var fold := Fold(c.newest, table, c.squashed);
    fold.errors == [] && HoldsPrefix(c.newest, fold.applied, Count(c, table))
  }

  predicate ValidConfig(c: Config) {
    && c.newest != []
    && ValidJournal(c.newest)
    && (c.squashed.Some? ==> CarriesHistory(c.newest, c.squashed.value))
    && GoodTable(c, c.initial)
  }

  predicate Init(c: Config, s: State) {
    && s.table == c.initial
    && s.holder == None
    && forall p :: 0 <= p < |s.procs| ==>
         && IsBuild(c, s.procs[p].build)
         && s.procs[p].phase == Idle && !s.procs[p].ran && !s.procs[p].leaked
  }

  ghost predicate IsRun(c: Config, states: seq<State>, steps: seq<Step>) {
    && |states| == |steps| + 1
    && Init(c, states[0])
    && forall i :: 0 <= i < |steps| ==> Enabled(states[i], steps[i]) && states[i + 1] == Apply(c, states[i], steps[i])
  }

  // ---------------------------------------------------------------------------------------------
  // The invariant

  predicate InCriticalSection(ph: Phase) {
    ph.Granted? || ph.Locked? || ph.HasRead? || ph.Planned? || ph.Migrated? || (ph.Finishing? && ph.locked)
  }

  /** Only a run that is over, or ending without the lock in its hands, has leaked it. */
  predicate LeaksLate(p: Process) { p.leaked ==> p.phase.Done? || (p.phase.Finishing? && !p.phase.locked) }

  predicate Holds(p: Process) { InCriticalSection(p.phase) || p.leaked }

  /** The table is the initial one plus the rows of an unbroken stretch of the newest journal. */
  predicate TableInv(c: Config, s: State) {
    var k0, k := Count(c, c.initial), Count(c, s.table);
    && GoodTable(c, s.table)
    && k0 <= k <= |c.newest|
    && s.table == c.initial + Map(c.newest[k0..k], RowOf)
  }

  /** The stretch ends where the newest journal run so far ends. */
  predicate RanInv(c: Config, s: State) {
    var k0, k := Count(c, c.initial), Count(c, s.table);
    && (forall p :: 0 <= p < |s.procs| && s.procs[p].ran ==> |s.procs[p].build| <= k)
    && (k == k0 || exists p :: 0 <= p < |s.procs| && s.procs[p].ran && |s.procs[p].build| == k)
  }

  predicate LockInv(s: State) {
    && (s.holder.Some? ==> s.holder.value < |s.procs| && Holds(s.procs[s.holder.value]))
    && (forall p :: 0 <= p < |s.procs| && Holds(s.procs[p]) ==> s.holder == Some(p))
    && (forall p :: 0 <= p < |s.procs| ==> LeaksLate(s.procs[p]))
  }

  predicate ProcInv(c: Config, s: State, p: nat)
    requires p < |s.procs|
  {
    var pr := s.procs[p];
    && IsBuild(c, pr.build)
    && (pr.phase.HasRead? ==> pr.phase.applied == s.table)
    && (pr.phase.Planned? ==>
          && pr.phase.applied == s.table
          && pr.phase.plan == Plan(pr.build, s.table, pr.amended, c.squashed)
          && pr.phase.plan.errors == [])
    && (pr.ran ==> pr.phase.Migrated? || pr.phase.Dead?
                   || ((pr.phase.Finishing? || pr.phase.Done?) && !pr.phase.outcome.Refused?))
  }

  predicate Inv(c: Config, s: State) {
    && TableInv(c, s)
    && RanInv(c, s)
    && LockInv(s)
    && forall p :: 0 <= p < |s.procs| ==> ProcInv(c, s, p)
  }

  // ---------------------------------------------------------------------------------------------
  // A build meets a table

  lemma {:induction false} FoldOfBuild(c: Config, a: nat, table: seq<Row>)
    requires ValidConfig(c) && 1 <= a <= |c.newest|
    ensures Fold(c.newest[..a], table, c.squashed) == Fold(c.newest, table, c.squashed)
  {
    if c.squashed.Some? {
      assert FindTag(c.newest, c.squashed.value.baselineTag) == Some(c.newest[0]);
      assert FindTag(c.newest[..a], c.squashed.value.baselineTag) == Some(c.newest[0]);
    }
  }

  lemma {:induction false} ValidBuild(c: Config, a: nat)
    requires ValidJournal(c.newest) && a <= |c.newest|
    ensures ValidJournal(c.newest[..a])
  {
    forall i | 0 <= i < a ensures ValidEntry(c.newest[..a], i) {
      assert ValidEntry(c.newest, i);
    }
  }

  lemma {:induction false} UpTo(es: seq<JournalEntry>, a: nat)
    requires ValidJournal(es) && 1 <= a <= |es|
    ensures forall i :: 0 <= i < |es| ==> (es[i].when <= es[a - 1].when <==> i < a)
    ensures Reached(es, es[a - 1].when) == a
  {
    forall i | 0 <= i < |es| ensures es[i].when <= es[a - 1].when <==> i < a {
      if i < a - 1 {
        WhensIncrease(es, i, a - 1);
      } else if i > a - 1 {
        WhensIncrease(es, a - 1, i);
      }
    }
    FindFromIs(es, (e: JournalEntry) => e.when > es[a - 1].when, 0, a);
    var last := es[a - 1].when;
    FindFromIs(es, (e: JournalEntry) => e.when > last, 0, a);
  }

  /** A build is refused exactly when the table already holds more entries than the build knows. */
  lemma {:induction false} BuildRefusedIff(c: Config, a: nat, table: seq<Row>, amended: Amendments)
    requires ValidConfig(c) && GoodTable(c, table) && 1 <= a <= |c.newest|
    ensures Plan(c.newest[..a], table, amended, c.squashed).errors != [] <==> a < Count(c, table)
  {
    var build := c.newest[..a];
    var k := Count(c, table);
    FoldOfBuild(c, a, table);
    ValidBuild(c, a);
    PlanAcceptsIff(build, table, amended, c.squashed);
    hide ValidJournal, FoldSquashedHistory, FindTag, Reached, Plan;
    if k > 0 {
      UpTo(c.newest, k);
      UpTo(c.newest, a);
      assert NewestKnown(build) == c.newest[a - 1].when;
      forall i | 0 <= i < a && build[i].when <= c.newest[k - 1].when
        ensures HasRow(Fold(c.newest, table, c.squashed).applied, build[i].when)
      {
        assert build[i] == c.newest[i];
      }
    }
  }

  /** A build that is not refused runs exactly the entries after those the table holds, up to its own last. */
  lemma {:induction false} BuildRuns(c: Config, a: nat, table: seq<Row>)
    requires ValidConfig(c) && GoodTable(c, table) && 1 <= a <= |c.newest| && Count(c, table) <= a
    ensures DrizzleRuns(c.newest[..a], table) == c.newest[Count(c, table)..a]
  {
    hide FoldSquashedHistory, FindTag, LaterThan, ValidJournal, Reached, CarriesHistory;
    var k := Count(c, table);
    var build := c.newest[..a];
    assert build[k..] == c.newest[k..a];
    if c.squashed.Some? {
      CarriedBaseline(c.newest, c.squashed.value);
      FoldKeepsMaximum(c.newest, table, c.squashed.value);
    }
    if k > 0 {
      UpTo(c.newest, k);
      LaterFrom(build, c.newest[k - 1].when, k);
    } else {
      assert build[0..] == build;
    }
  }

  lemma {:induction false} RunAppends(c: Config, a: nat, table: seq<Row>)
    requires ValidConfig(c) && GoodTable(c, table) && 1 <= a <= |c.newest| && Count(c, table) <= a
    ensures Drizzle(c.newest[..a], table) == table + Map(c.newest[Count(c, table)..a], RowOf)
    ensures GoodTable(c, Drizzle(c.newest[..a], table)) && Count(c, Drizzle(c.newest[..a], table)) == a
  {
    hide GoodTable, ValidConfig, Count;
    var k := Count(c, table);
    BuildRuns(c, a, table);
    if k == a {
      assert Map(c.newest[k..a], RowOf) == [];
      assert table + [] == table;
    } else {
      TableAfter(c, a, table);
    }
  }

  lemma {:induction false} TableAfter(c: Config, a: nat, table: seq<Row>)
    requires ValidConfig(c) && GoodTable(c, table) && Count(c, table) < a <= |c.newest|
    ensures var after := table + Map(c.newest[Count(c, table)..a], RowOf);
            GoodTable(c, after) && Count(c, after) == a
  {
    hide *;
    var k := Count(c, table);
    var build := c.newest[..a];
    var before := Fold(c.newest, table, c.squashed);
    var after := Fold(c.newest, table + Map(c.newest[k..a], RowOf), c.squashed);
    ConfigIsValid(c);
    ValidBuild(c, a);
    FoldAfter(c, a, table);
    UpTo(c.newest, a);
    UpToBuild(c, a, k);
    GoodTableIs(c, table);
    PrefixMaximum(c.newest, before.applied, k);
    MergedRows(build, before.applied, after.applied, k);
    PrefixIs(c.newest, after.applied, a);
    CountOf(c, table + Map(c.newest[k..a], RowOf));
    GoodTableIs(c, table + Map(c.newest[k..a], RowOf));
  }

  lemma {:induction false} ConfigIsValid(c: Config)
    requires ValidConfig(c)
    ensures c.newest != [] && ValidJournal(c.newest)
  {
    hide ValidJournal, GoodTable, CarriesHistory;
  }

  lemma {:induction false} GoodTableIs(c: Config, table: seq<Row>)
    ensures GoodTable(c, table) <==>
              Fold(c.newest, table, c.squashed).errors == [] && HoldsPrefix(c.newest, Fold(c.newest, table, c.squashed).applied, Count(c, table))
  {
    hide Fold, HoldsPrefix, Count;
  }

  lemma {:induction false} CountOf(c: Config, table: seq<Row>)
    ensures var applied := Fold(c.newest, table, c.squashed).applied;
            Count(c, table) == if applied == [] then 0 else Reached(c.newest, MaxCreated(applied))
  {
    hide Fold, Reached, MaxCreated;
  }

  lemma {:induction false} PrefixMaximum(es: seq<JournalEntry>, rows: seq<Row>, k: nat)
    requires HoldsPrefix(es, rows, k)
    ensures k <= |es| && (rows == [] <==> k == 0) && (k > 0 ==> MaxCreated(rows) == es[k - 1].when)
    ensures forall i :: 0 <= i < k ==> HasRow(rows, es[i].when)
  {
    hide MaxCreated, HasRow;
  }

  lemma {:induction false} PrefixIs(es: seq<JournalEntry>, rows: seq<Row>, a: nat)
    requires 1 <= a <= |es| && rows != [] && MaxCreated(rows) == es[a - 1].when
    requires forall i :: 0 <= i < a ==> HasRow(rows, es[..a][i].when)
    ensures HoldsPrefix(es, rows, a)
  {
    hide MaxCreated, HasRow;
    assert forall i :: 0 <= i < a ==> es[..a][i] == es[i];
  }

  lemma {:induction false} UpToBuild(c: Config, a: nat, k: nat)
    requires ValidConfig(c) && k < a <= |c.newest|
    ensures k > 0 ==> c.newest[k - 1].when < c.newest[a - 1].when
    ensures forall i :: 0 <= i < k ==> c.newest[..a][i] == c.newest[i]
    ensures c.newest[..a][k..] == c.newest[k..a]
  {
    if k > 0 {
      WhensIncrease(c.newest, k - 1, a - 1);
    }
  }

  lemma {:induction false} FoldAfter(c: Config, a: nat, table: seq<Row>)
    requires ValidConfig(c) && 1 <= a <= |c.newest| && Count(c, table) < a
    ensures var more := Map(c.newest[Count(c, table)..a], RowOf);
            && Fold(c.newest, table + more, c.squashed).errors == Fold(c.newest, table, c.squashed).errors
            && forall w :: HasRow(Fold(c.newest, table + more, c.squashed).applied, w)
                      <==> HasRow(Fold(c.newest, table, c.squashed).applied, w) || HasRow(more, w)
  {
    hide Fold, HasRow, Count;
    var k := Count(c, table);
    FoldOfBuild(c, a, table);
    FoldOfBuild(c, a, table + Map(c.newest[k..a], RowOf));
    BuildCarries(c, a);
    UpToBuild(c, a, k);
    FoldRunRows(c.newest[..a], table, c.squashed, k);
  }

  lemma {:induction false} BuildCarries(c: Config, a: nat)
    requires ValidConfig(c) && 1 <= a <= |c.newest|
    ensures c.squashed.Some? ==> CarriesHistory(c.newest[..a], c.squashed.value)
  {
  }

  // ---------------------------------------------------------------------------------------------
  // Every step keeps the invariant

  lemma {:induction false} InitInv(c: Config, s: State)
    requires ValidConfig(c) && Init(c, s)
    ensures Inv(c, s)
  {
    var k0 := Count(c, c.initial);
    assert Map(c.newest[k0..k0], RowOf) == [];
    assert c.initial + [] == c.initial;
  }

  /** A process about to run the migrator holds the lock, and its plan is the plan of the table as it is now. */
  lemma {:induction false} RunStep(c: Config, s: State, pid: nat)
    requires ValidConfig(c) && Inv(c, s) && Enabled(s, Step(pid, RunDrizzle))
    ensures var build := s.procs[pid].build;
            var k := Count(c, s.table);
            && k <= |build| <= |c.newest|
            && Map(DrizzleRuns(build, s.table), TagOf) == s.procs[pid].phase.plan.pending
            && Drizzle(build, s.table) == s.table + Map(c.newest[k..|build|], RowOf)
            && GoodTable(c, Drizzle(build, s.table))
            && Count(c, Drizzle(build, s.table)) == |build|
  {
    hide GoodTable, ValidConfig, Plan, Fold, Count, Drizzle, DrizzleRuns;
    var p := s.procs[pid];
    assert ProcInv(c, s, pid);
    var a := |p.build|;
    BuildRefusedIff(c, a, s.table, p.amended);
    RunAppends(c, a, s.table);
    DrizzleRunsThePlan(p.build, s.table, p.amended, c.squashed) by {
      BuildIsPlannable(c, a, s.table, p.amended);
    }
  }

  lemma {:induction false} BuildIsPlannable(c: Config, a: nat, table: seq<Row>, amended: Amendments)
    requires ValidConfig(c) && 1 <= a <= |c.newest|
    requires Plan(c.newest[..a], table, amended, c.squashed).errors == []
    ensures c.squashed.Some? ==> BaselineIsNewest(c.newest[..a], c.squashed.value)
    ensures Fold(c.newest[..a], table, c.squashed).errors == []
  {
    PlanAcceptsIff(c.newest[..a], table, amended, c.squashed);
    BuildCarries(c, a);
    if c.squashed.Some? {
      CarriedBaseline(c.newest[..a], c.squashed.value);
    }
  }

  lemma {:induction false} StretchGrows(c: Config, k0: nat, k: nat, a: nat)
    requires k0 <= k <= a <= |c.newest|
    ensures Map(c.newest[k0..k], RowOf) + Map(c.newest[k..a], RowOf) == Map(c.newest[k0..a], RowOf)
  {
  }

  /** The one action that writes is the migrator, and it writes for the process that runs it. */
  lemma {:induction false} ApplyFrame(c: Config, s: State, step: Step)
    requires Enabled(s, step)
    ensures var s' := Apply(c, s, step);
            && s'.table == (if step.action.RunDrizzle? then Drizzle(s.procs[step.pid].build, s.table) else s.table)
            && |s'.procs| == |s.procs|
            && forall p :: 0 <= p < |s.procs| ==>
                 && s'.procs[p].build == s.procs[p].build
                 && s'.procs[p].ran == (s.procs[p].ran || step == Step(p, RunDrizzle))
  {
    hide Plan, Drizzle;
  }

  lemma {:induction false} StepTableInv(c: Config, s: State, step: Step)
    requires ValidConfig(c) && Inv(c, s) && Enabled(s, step)
    ensures TableInv(c, Apply(c, s, step)) && RanInv(c, Apply(c, s, step))
  {
    hide Inv, GoodTable, ValidConfig, Plan, Count, Drizzle, Apply, DrizzleRuns;
    assert TableInv(c, s) && RanInv(c, s) by {
      InvParts(c, s);
    }
    ApplyFrame(c, s, step);
    if step.action.RunDrizzle? {
      RunStep(c, s, step.pid);
      WriteTableInv(c, s, Apply(c, s, step), step.pid);
    }
  }

  lemma {:induction false} InvParts(c: Config, s: State)
    requires Inv(c, s)
    ensures TableInv(c, s) && RanInv(c, s) && LockInv(s)
  {
    hide TableInv, RanInv, LockInv, ProcInv;
  }

  lemma {:induction false} WriteTableInv(c: Config, s: State, s': State, pid: nat)
    requires TableInv(c, s) && RanInv(c, s) && pid < |s.procs| == |s'.procs|
    requires forall p :: 0 <= p < |s.procs| ==>
               && s'.procs[p].build == s.procs[p].build
               && s'.procs[p].ran == (s.procs[p].ran || p == pid)
    requires Count(c, s.table) <= |s.procs[pid].build| <= |c.newest|
    requires s'.table == s.table + Map(c.newest[Count(c, s.table)..|s.procs[pid].build|], RowOf)
    requires GoodTable(c, s'.table) && Count(c, s'.table) == |s.procs[pid].build|
    ensures TableInv(c, s') && RanInv(c, s')
  {
    hide GoodTable, Count, RanInv;
    var k0, k, a := Count(c, c.initial), Count(c, s.table), |s.procs[pid].build|;
    StretchGrows(c, k0, k, a);
    var stretch, more := Map(c.newest[k0..k], RowOf), Map(c.newest[k..a], RowOf);
    assert (c.initial + stretch) + more == c.initial + (stretch + more);
    WriteRanInv(c, s, s', pid);
  }

  lemma {:induction false} WriteRanInv(c: Config, s: State, s': State, pid: nat)
    requires RanInv(c, s) && pid < |s.procs| == |s'.procs|
    requires forall p :: 0 <= p < |s.procs| ==>
               && s'.procs[p].build == s.procs[p].build
               && s'.procs[p].ran == (s.procs[p].ran || p == pid)
    requires Count(c, s.table) <= |s.procs[pid].build| == Count(c, s'.table)
    ensures RanInv(c, s')
  {
    hide Count;
    assert s'.procs[pid].ran;
  }

  /** A process holds the lock exactly while it is in the critical section or its session leaked it. */
  lemma {:induction false} StepLockInv(c: Config, s: State, step: Step)
    requires Inv(c, s) && Enabled(s, step)
    ensures LockInv(Apply(c, s, step))
  {
    InvParts(c, s);
    hide Inv, TableInv, RanInv, ProcInv, Plan, Drizzle, InCriticalSection;
    OtherProcesses(c, s, step);
    OwnProcess(c, s, step);
  }

  lemma {:induction false} OtherProcesses(c: Config, s: State, step: Step)
    requires Enabled(s, step)
    ensures var s' := Apply(c, s, step);
            && |s'.procs| == |s.procs|
            && forall p :: 0 <= p < |s.procs| && p != step.pid ==> s'.procs[p] == s.procs[p]
    ensures Apply(c, s, step).holder != s.holder ==>
              if Apply(c, s, step).holder.Some? then step.action.Acquire? && Apply(c, s, step).holder == Some(step.pid) && s.holder.None?
              else s.holder == Some(step.pid)
  {
    hide Plan, Drizzle;
  }

  /** What the step does to its own process and to the lock it holds. */
  lemma {:induction false} OwnProcess(c: Config, s: State, step: Step)
    requires Enabled(s, step) && LockInv(s)
    ensures var p, p' := s.procs[step.pid], Apply(c, s, step).procs[step.pid];
            && (Holds(p') ==> Apply(c, s, step).holder == Some(step.pid))
            && (Apply(c, s, step).holder == Some(step.pid) ==> Holds(p'))
            && LeaksLate(p')
  {
    hide Plan, Drizzle;
    assert (Holds(s.procs[step.pid]) <==> s.holder == Some(step.pid)) && LeaksLate(s.procs[step.pid]);
    hide LockInv;
  }

  lemma {:induction false} StepProcInv(c: Config, s: State, step: Step)
    requires Inv(c, s) && Enabled(s, step)
    ensures var s' := Apply(c, s, step); forall p :: 0 <= p < |s'.procs| ==> ProcInv(c, s', p)
  {
    hide *;
    InvParts(c, s);
    OtherProcesses(c, s, step);
    TableChanges(c, s, step);
    forall p | 0 <= p < |s.procs| ensures ProcInv(c, Apply(c, s, step), p) {
      ProcParts(c, s, p);
      ProcParts(c, s, step.pid);
      if p == step.pid {
        OwnProcInv(c, s, step);
      } else {
        OneLock(s, p, step);
        ProcFrame(c, s, Apply(c, s, step), p);
      }
    }
  }

  lemma {:induction false} ProcParts(c: Config, s: State, p: nat)
    requires Inv(c, s) && p < |s.procs|
    ensures ProcInv(c, s, p)
  {
    hide TableInv, RanInv, LockInv, ProcInv;
  }

  lemma {:induction false} TableChanges(c: Config, s: State, step: Step)
    requires Enabled(s, step)
    ensures step.pid < |s.procs|
    ensures Apply(c, s, step).table != s.table ==> step.action.RunDrizzle? && InCriticalSection(s.procs[step.pid].phase)
  {
    hide Plan, Drizzle;
  }

  lemma {:induction false} OneLock(s: State, p: nat, step: Step)
    requires LockInv(s) && p < |s.procs| && step.pid < |s.procs| && p != step.pid
    ensures !(InCriticalSection(s.procs[p].phase) && InCriticalSection(s.procs[step.pid].phase))
  {
    hide InCriticalSection;
  }

  lemma {:induction false} ProcFrame(c: Config, s: State, s': State, p: nat)
    requires p < |s.procs| == |s'.procs| && ProcInv(c, s, p) && s'.procs[p] == s.procs[p]
    requires InCriticalSection(s.procs[p].phase) ==> s'.table == s.table
    ensures ProcInv(c, s', p)
  {
    hide Plan, IsBuild;
  }

  lemma {:induction false} OwnProcInv(c: Config, s: State, step: Step)
    requires Enabled(s, step) && ProcInv(c, s, step.pid)
    ensures |Apply(c, s, step).procs| == |s.procs| && ProcInv(c, Apply(c, s, step), step.pid)
  {
    hide Plan, Drizzle, IsBuild;
  }

  lemma {:induction false} StepInv(c: Config, s: State, step: Step)
    requires ValidConfig(c) && Inv(c, s) && Enabled(s, step)
    ensures Inv(c, Apply(c, s, step))
  {
    hide TableInv, RanInv, LockInv, ProcInv, Apply, Enabled;
    StepTableInv(c, s, step);
    StepLockInv(c, s, step);
    StepProcInv(c, s, step);
  }

  lemma {:induction false} RunInv(c: Config, states: seq<State>, steps: seq<Step>, i: nat)
    requires ValidConfig(c) && IsRun(c, states, steps) && i < |states|
    ensures Inv(c, states[i])
    decreases i
  {
    if i == 0 {
      InitInv(c, states[0]);
    } else {
      RunInv(c, states, steps, i - 1);
      StepInv(c, states[i - 1], steps[i - 1]);
    }
  }

  // ---------------------------------------------------------------------------------------------
  // The theorems over runs

  /**
   * In every interleaving the table is the initial one followed by the rows of one unbroken stretch of the newest
   * journal, which ends exactly where the newest journal run so far ends: nothing is skipped, doubled or reordered.
   */
  lemma {:induction false} TableIsNewestJournalRun(c: Config, states: seq<State>, steps: seq<Step>, i: nat)
    requires ValidConfig(c) && IsRun(c, states, steps) && i < |states|
    ensures var k0, k := Count(c, c.initial), Count(c, states[i].table);
            && k0 <= k <= |c.newest|
            && states[i].table == c.initial + Map(c.newest[k0..k], RowOf)
            && (forall p :: 0 <= p < |states[i].procs| && states[i].procs[p].ran ==> |states[i].procs[p].build| <= k)
            && (k > k0 ==> exists p :: 0 <= p < |states[i].procs|
                                    && states[i].procs[p].ran && |states[i].procs[p].build| == k)
  {
    RunInv(c, states, steps, i);
  }

  lemma {:induction false} StepAppends(c: Config, s: State, step: Step) returns (more: seq<Row>)
    requires ValidConfig(c) && Inv(c, s) && Enabled(s, step)
    ensures Apply(c, s, step).table == s.table + more
  {
    hide Inv, ValidConfig, Drizzle, DrizzleRuns, Plan, Apply, Count, GoodTable;
    ApplyFrame(c, s, step);
    if step.action.RunDrizzle? {
      RunStep(c, s, step.pid);
      more := Drizzle(s.procs[step.pid].build, s.table)[|s.table|..];
    } else {
      more := [];
    }
  }

  /** Rows are only ever appended. */
  lemma {:induction false} TableOnlyGrows(c: Config, states: seq<State>, steps: seq<Step>, i: nat, j: nat)
    returns (more: seq<Row>)
    requires ValidConfig(c) && IsRun(c, states, steps) && i <= j < |states|
    ensures states[j].table == states[i].table + more
    decreases j
  {
    hide Inv, ValidConfig, Apply, Enabled, Init;
    if i == j {
      more := [];
    } else {
      var before := TableOnlyGrows(c, states, steps, i, j - 1);
      RunInv(c, states, steps, j - 1);
      var last := StepAppends(c, states[j - 1], steps[j - 1]);
      more := before + last;
    }
  }

  /** The migrator, when a process runs it, applies exactly the entries that process planned and logged as pending. */
  lemma {:induction false} MigratorRunsThePlan(c: Config, states: seq<State>, steps: seq<Step>, i: nat)
    requires ValidConfig(c) && IsRun(c, states, steps) && i < |steps| && steps[i].action.RunDrizzle?
    ensures var p := states[i].procs[steps[i].pid];
            && Map(DrizzleRuns(p.build, states[i].table), TagOf) == p.phase.plan.pending
            && states[i + 1].table == states[i].table + Map(DrizzleRuns(p.build, states[i].table), RowOf)
  {
    hide Inv, ValidConfig, DrizzleRuns, Apply, Plan, Init;
    RunInv(c, states, steps, i);
    RunStep(c, states[i], steps[i].pid);
    ApplyFrame(c, states[i], steps[i]);
  }

  /** A process that plans is refused exactly when the table is ahead of its build. */
  lemma {:induction false} RefusedIffOlder(c: Config, states: seq<State>, steps: seq<Step>, i: nat)
    requires ValidConfig(c) && IsRun(c, states, steps) && i < |steps| && steps[i].action.MakePlan?
    ensures var p := steps[i].pid;
            var after := states[i + 1].procs[p].phase;
            && (after.Planned? || (after.Finishing? && after.outcome.Refused?))
            && (after.Finishing? <==> |states[i].procs[p].build| < Count(c, states[i].table))
  {
    hide Inv, ValidConfig, Count, Init;
    RunInv(c, states, steps, i);
    PlanStep(c, states[i], steps[i].pid);
  }

  lemma {:induction false} PlanStep(c: Config, s: State, pid: nat)
    requires ValidConfig(c) && Inv(c, s) && Enabled(s, Step(pid, MakePlan))
    ensures var after := Apply(c, s, Step(pid, MakePlan)).procs[pid].phase;
            && (after.Planned? || (after.Finishing? && after.outcome.Refused?))
            && (after.Finishing? <==> |s.procs[pid].build| < Count(c, s.table))
  {
    hide Inv, ValidConfig, Plan, GoodTable, Count, TableInv;
    var p := s.procs[pid];
    InvParts(c, s);
    ReadIsBuild(c, s, pid);
    TableIsGood(c, s);
    BuildRefusedIff(c, |p.build|, s.table, p.amended);
  }

  lemma {:induction false} ReadIsBuild(c: Config, s: State, pid: nat)
    requires Inv(c, s) && pid < |s.procs| && s.procs[pid].phase.HasRead?
    ensures IsBuild(c, s.procs[pid].build) && s.procs[pid].phase.applied == s.table
  {
    hide TableInv, RanInv, LockInv;
    assert ProcInv(c, s, pid);
  }

  lemma {:induction false} TableIsGood(c: Config, s: State)
    requires TableInv(c, s)
    ensures GoodTable(c, s.table)
  {
    hide GoodTable, Count;
  }

  /** A process that was refused never wrote. */
  lemma {:induction false} RefusedNeverWrote(c: Config, states: seq<State>, steps: seq<Step>, i: nat, pid: nat)
    requires ValidConfig(c) && IsRun(c, states, steps) && i < |states| && pid < |states[i].procs|
    requires states[i].procs[pid].phase.Done? && states[i].procs[pid].phase.outcome.Refused?
    ensures forall j :: 0 <= j < i ==> steps[j] != Step(pid, RunDrizzle)
  {
    RunInv(c, states, steps, i);
    DoneUnrun(c, states[i], pid);
    hide Inv, ValidConfig, Apply, Enabled, Init;
    forall j | 0 <= j < i ensures steps[j] != Step(pid, RunDrizzle) {
      HadNotRun(c, states, steps, j + 1, i, pid);
      RanIsKept(c, states[j], steps[j]);
    }
  }

  lemma {:induction false} DoneUnrun(c: Config, s: State, pid: nat)
    requires Inv(c, s) && pid < |s.procs| && s.procs[pid].phase.Done? && s.procs[pid].phase.outcome.Refused?
    ensures !s.procs[pid].ran
  {
    hide TableInv, RanInv, LockInv;
    assert ProcInv(c, s, pid);
  }

  lemma {:induction false} RanIsKept(c: Config, s: State, step: Step)
    requires Enabled(s, step)
    ensures var s' := Apply(c, s, step);
            && step.pid < |s.procs| == |s'.procs| && (step.action.RunDrizzle? ==> s'.procs[step.pid].ran)
            && forall p :: 0 <= p < |s.procs| && s.procs[p].ran ==> s'.procs[p].ran
  {
    hide Plan, Drizzle;
  }

  lemma {:induction false} HadNotRun(c: Config, states: seq<State>, steps: seq<Step>, i: nat, j: nat, pid: nat)
    requires IsRun(c, states, steps) && i <= j < |states| && pid < |states[j].procs| && !states[j].procs[pid].ran
    ensures pid < |states[i].procs| && !states[i].procs[pid].ran
    decreases j - i
  {
    hide Apply, Enabled, Init;
    if i < j {
      RanIsKept(c, states[i], steps[i]);
      HadNotRun(c, states, steps, i + 1, j, pid);
    }
  }

  /** Between reading the table and acting on the plan, no other process writes. */
  lemma {:induction false} PlanIsNeverStale(c: Config, states: seq<State>, steps: seq<Step>, i: nat, pid: nat)
    requires ValidConfig(c) && IsRun(c, states, steps) && i < |steps| && pid < |states[i].procs|
    requires InCriticalSection(states[i].procs[pid].phase) && steps[i].pid != pid
    ensures states[i + 1].table == states[i].table
  {
    RunInv(c, states, steps, i);
    OneInside(c, states[i], pid, steps[i]);
  }

  lemma {:induction false} OneInside(c: Config, s: State, pid: nat, step: Step)
    requires Inv(c, s) && pid < |s.procs| && InCriticalSection(s.procs[pid].phase)
    requires Enabled(s, step) && step.pid != pid
    ensures Apply(c, s, step).table == s.table
  {
    hide TableInv, RanInv, ProcInv, Drizzle, Plan, Apply;
    ApplyFrame(c, s, step);
  }

  predicate Leaks(step: Step, pid: nat) { step.pid == pid && (step.action.ResetFails? || step.action.ReleaseFails?) }

  predicate EndsSession(step: Step, pid: nat) { step.pid == pid && (step.action.SessionEnds? || step.action.Crash?) }

  /** At some step before step `i` the RESET after the grant or the unlock failed, and the session has not ended since. */
  predicate HasLeaked(steps: seq<Step>, i: nat, pid: nat)
    requires i <= |steps|
  {
    i > 0 && (Leaks(steps[i - 1], pid) || (!EndsSession(steps[i - 1], pid) && HasLeaked(steps, i - 1, pid)))
  }

  lemma {:induction false} LeakedIff(c: Config, states: seq<State>, steps: seq<Step>, i: nat, pid: nat)
    requires IsRun(c, states, steps) && i < |states| && pid < |states[i].procs|
    ensures states[i].procs[pid].leaked <==> HasLeaked(steps, i, pid)
  {
    if i > 0 {
      ApplyLeaks(c, states[i - 1], steps[i - 1], pid);
      LeakedIff(c, states, steps, i - 1, pid);
    }
  }

  lemma {:induction false} ApplyLeaks(c: Config, s: State, step: Step, pid: nat)
    requires Enabled(s, step) && pid < |Apply(c, s, step).procs|
    ensures pid < |s.procs|
    ensures Apply(c, s, step).procs[pid].leaked <==> Leaks(step, pid) || (!EndsSession(step, pid) && s.procs[pid].leaked)
  {
    hide Plan, Drizzle;
  }

  /** A run that is over holds the lock exactly when the RESET after the grant or the unlock failed in its session. */
  lemma {:induction false} FinishedHoldsLockIff(c: Config, states: seq<State>, steps: seq<Step>, i: nat, pid: nat)
    requires ValidConfig(c) && IsRun(c, states, steps) && i < |states| && pid < |states[i].procs|
    requires states[i].procs[pid].phase.Done?
    ensures states[i].holder == Some(pid) <==> HasLeaked(steps, i, pid)
  {
    RunInv(c, states, steps, i);
    LeakedIff(c, states, steps, i, pid);
    DoneHolds(c, states[i], pid);
  }

  lemma {:induction false} DoneHolds(c: Config, s: State, pid: nat)
    requires Inv(c, s) && pid < |s.procs| && s.procs[pid].phase.Done?
    ensures s.holder == Some(pid) <==> s.procs[pid].leaked
  {
    hide TableInv, RanInv, ProcInv;
  }

  /** While no session leaks the lock, a waiting process can be granted it or its holder can go on. */
  lemma {:induction false} NoDeadlock(c: Config, states: seq<State>, steps: seq<Step>, i: nat, waiting: nat)
    requires ValidConfig(c) && IsRun(c, states, steps) && i < |states| && waiting < |states[i].procs|
    requires states[i].procs[waiting].phase.Waiting?
    requires forall p :: 0 <= p < |states[i].procs| ==> !states[i].procs[p].leaked
    ensures Enabled(states[i], Step(waiting, Acquire))
         || exists a: Action :: a in {ResetTimeout, ReadApplied, MakePlan, RunDrizzle, CountApplied, Release}
                             && states[i].holder.Some? && Enabled(states[i], Step(states[i].holder.value, a))
  {
    RunInv(c, states, steps, i);
    var s := states[i];
    if s.holder.Some? {
      var h := s.holder.value;
      var a := match s.procs[h].phase
        case Granted => ResetTimeout
        case Locked => ReadApplied
        case HasRead(_) => MakePlan
        case Planned(_, _) => RunDrizzle
        case Migrated(_) => CountApplied
        case _ => Release;
      assert Enabled(s, Step(h, a));
    }
  }

  /** The RESET that follows the grant can fail with the lock held: that run ends as failed and keeps the lock. */
  lemma {:induction false} FailedResetKeepsLock(c: Config, s: State, pid: nat)
    requires Inv(c, s) && pid < |s.procs| && s.procs[pid].phase.Granted?
    ensures var s1 := Apply(c, s, Step(pid, ResetFails));
            && Enabled(s1, Step(pid, Release))
            && var s2 := Apply(c, s1, Step(pid, Release));
               && s2.procs[pid].phase == Done(Failed)
               && s2.holder == Some(pid)
               && forall q :: 0 <= q < |s2.procs| ==> !Enabled(s2, Step(q, Acquire))
  {
    assert InCriticalSection(s.procs[pid].phase);
  }

  // ---------------------------------------------------------------------------------------------
  // Tables a run can start from

  /** A fresh database. */
  lemma {:induction false} EmptyTableIsGood(newest: seq<JournalEntry>, squashed: Option<History>)
    ensures GoodTable(Config(newest, squashed, []), [])
  {
  }

  /** A database that ran the whole folded history, with the hashes it was released with, counts as one that ran the baseline. */
  lemma {:induction false} LegacyTableIsGood(newest: seq<JournalEntry>, h: History, rows: seq<Row>)
    requires ValidJournal(newest) && CarriesHistory(newest, h)
    requires forall m :: m in h.migrations ==> HasRow(rows, m.when)
    requires forall r :: r in rows ==>
               IsFolded(h, r.createdAt) && r.hash in FoldedAt(h.migrations, r.createdAt).hashes && r.hash != newest[0].hash
    ensures var c := Config(newest, Some(h), rows);
            GoodTable(c, rows) && Count(c, rows) == 1
  {
    var c := Config(newest, Some(h), rows);
    var baseline := FindTag(newest, h.baselineTag);
    CarriedBaseline(newest, h);
    var ran := RanFolded(h, baseline, rows);
    FilterAll(rows, (r: Row) => IsOldRow(h, baseline, ran, r));
    FilterNone(rows, (r: Row) => !IsOldRow(h, baseline, ran, r));
    assert OldRows(h, baseline, rows) == rows && RestRows(h, baseline, rows) == [];
    FilterNone(h.migrations, (m: Folded) => !HasRow(rows, m.when));
    assert rows != [] by {
      var m :| m in h.migrations && m.when == newest[0].when;
      assert HasRow(rows, m.when);
    }
    var applied := [Row(newest[0].hash, newest[0].when)];
    hide OldRows, RestRows, RanFolded, IsOldRow, CarriesHistory, ValidJournal, FindTag;
    var missing := Filter(h.migrations, (m: Folded) => !HasRow(OldRows(h, baseline, rows), m.when));
    FilterAgree(h.migrations, (m: Folded) => !HasRow(OldRows(h, baseline, rows), m.when), (m: Folded) => !HasRow(rows, m.when));
    assert missing == [] && [] + applied == applied;
    assert Fold(newest, rows, Some(h)).applied == applied && Fold(newest, rows, Some(h)).errors == [];
    UpTo(newest, 1);
    assert MaxCreated(applied) == newest[0].when && HasRow(applied, newest[0].when);
  }
}
