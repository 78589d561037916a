/** What a run of `runMigrations` that is over reports (src/db/migrator.ts), read off the steps it took. */
module MigratorOutcomes {
  import opened MigrationPlan
  import opened MigrationPlanTheorems
  import opened Migrator
  import opened Seqs

  /** The steps a process took so far: whether one failed, the table it read, and the rows it counted in the end. */
  datatype Record = Record(failed: bool, read: Option<seq<Row>>, planned: bool, ran: bool, counted: Option<nat>)

  /** `table`: the database's table when the step is taken. */
  function Noted(r: Record, action: Action, table: seq<Row>): Record {
    match action
    case AcquireFails => r.(failed := true)
    case ResetFails => r.(failed := true)
    case QueryThrows => r.(failed := true)
    case ReadApplied => r.(read := Some(table))
    case MakePlan => r.(planned := true)
    case RunDrizzle => r.(ran := true)
    case CountApplied => r.(counted := Some(|table|))
    case _ => r
  }

  /** The record of process `pid` before step `i`. */
  function RecordOf(states: seq<State>, steps: seq<Step>, i: nat, pid: nat): Record
    requires i <= |steps| < |states|
  {
    if i == 0 then Record(false, None, false, false, None)
    else
      var before := RecordOf(states, steps, i - 1, pid);
      if steps[i - 1].pid == pid then Noted(before, steps[i - 1].action, states[i - 1].table) else before
  }

  /**
   * A failure exactly after a failed step; a success exactly when the process planned, ran the migrator and counted
   * without one, with the rows read, the rows counted, and as many more as were pending; otherwise a refusal, which
   * did not run the migrator and has the errors of its plan.
   */
  predicate Reports(c: Config, p: Process, r: Record, outcome: Outcome) {
    && (outcome.Failed? <==> r.failed)
    && (outcome.Succeeded? <==> !r.failed && r.planned && r.ran && r.counted.Some?)
    && (outcome.Refused? <==> !r.failed && !r.ran)
    && (outcome.Succeeded? ==>
          && r.read.Some? && outcome.before == |r.read.value| && Some(outcome.after) == r.counted
          && Plan(p.build, r.read.value, p.amended, c.squashed).errors == []
          && outcome.after - outcome.before == |Plan(p.build, r.read.value, p.amended, c.squashed).pending|)
    && (outcome.Refused? ==>
          && r.planned && r.read.Some? && outcome.read == |r.read.value|
          && outcome.errors == Plan(p.build, r.read.value, p.amended, c.squashed).errors && outcome.errors != [])
  }

  /** No failed step and no count so far; whether the process read, planned and ran the migrator. */
  predicate Took(r: Record, read: bool, planned: bool, ran: bool) {
    !r.failed && r.counted.None? && r.read.Some? == read && r.planned == planned && r.ran == ran
  }

  /** What the phase of a process says of its record; `size`: the rows of the table now. */
  predicate Told(c: Config, p: Process, size: nat, r: Record) {
    match p.phase
    case HasRead(applied) => Took(r, true, false, false) && r.read.value == applied
    case Planned(applied, plan) =>
      && Took(r, true, true, false) && r.read.value == applied
      && plan == Plan(p.build, applied, p.amended, c.squashed) && plan.errors == []
    case Migrated(before) =>
      && Took(r, true, true, true) && before == |r.read.value|
      && Plan(p.build, r.read.value, p.amended, c.squashed).errors == []
      && size == before + |Plan(p.build, r.read.value, p.amended, c.squashed).pending|
    case Finishing(outcome, _) => Reports(c, p, r, outcome)
    case Done(outcome) => Reports(c, p, r, outcome)
    case Dead => true
    case _ => Took(r, false, false, false)
  }

  // ---------------------------------------------------------------------------------------------
  // One step

  lemma {:induction false} StepTold(c: Config, s: State, step: Step, r: Record)
    requires Enabled(s, step) && Told(c, s.procs[step.pid], |s.table|, r)
    requires step.action.RunDrizzle? ==>
               |Drizzle(s.procs[step.pid].build, s.table)| == |s.procs[step.pid].phase.applied| + |s.procs[step.pid].phase.plan.pending|
    ensures var s' := Apply(c, s, step);
            step.pid < |s'.procs| && Told(c, s'.procs[step.pid], |s'.table|, Noted(r, step.action, s.table))
  {
    hide *;
    match step.action {
      case Connect => EarlyTold(c, s, step, r);
      case Acquire => EarlyTold(c, s, step, r);
      case ResetTimeout => EarlyTold(c, s, step, r);
      case ReadApplied => EarlyTold(c, s, step, r);
      case AcquireFails => FailureTold(c, s, step, r);
      case ResetFails => FailureTold(c, s, step, r);
      case QueryThrows => FailureTold(c, s, step, r);
      case MakePlan => PlanTold(c, s, step, r);
      case RunDrizzle => RunTold(c, s, step, r);
      case CountApplied => CountTold(c, s, step, r);
      case _ => EndTold(c, s, step, r);
    }
  }

  lemma {:induction false} EarlyTold(c: Config, s: State, step: Step, r: Record)
    requires Enabled(s, step) && Told(c, s.procs[step.pid], |s.table|, r)
    requires step.action.Connect? || step.action.Acquire? || step.action.ResetTimeout? || step.action.ReadApplied?
    ensures var s' := Apply(c, s, step);
            step.pid < |s'.procs| && Told(c, s'.procs[step.pid], |s'.table|, Noted(r, step.action, s.table))
  {
    hide Plan, Drizzle, Reports;
  }

  lemma {:induction false} FailureTold(c: Config, s: State, step: Step, r: Record)
    requires Enabled(s, step) && Told(c, s.procs[step.pid], |s.table|, r)
    requires step.action.AcquireFails? || step.action.ResetFails? || step.action.QueryThrows?
    ensures var s' := Apply(c, s, step);
            step.pid < |s'.procs| && Told(c, s'.procs[step.pid], |s'.table|, Noted(r, step.action, s.table))
  {
    hide Plan, Drizzle, Reports;
    var p, p' := s.procs[step.pid], Apply(c, s, step).procs[step.pid];
    var next := Noted(r, step.action, s.table);
    FailureReports(c, p', next);
  }

  lemma {:induction false} PlanTold(c: Config, s: State, step: Step, r: Record)
    requires Enabled(s, step) && Told(c, s.procs[step.pid], |s.table|, r)
    requires step.action.MakePlan?
    ensures var s' := Apply(c, s, step);
            step.pid < |s'.procs| && Told(c, s'.procs[step.pid], |s'.table|, Noted(r, step.action, s.table))
  {
    hide Plan, Drizzle, Reports;
    var p, p' := s.procs[step.pid], Apply(c, s, step).procs[step.pid];
    var next := Noted(r, step.action, s.table);
    if p'.phase.Finishing? {
      RefusalReports(c, p', next, p'.phase.outcome);
    }
  }

  lemma {:induction false} RunTold(c: Config, s: State, step: Step, r: Record)
    requires Enabled(s, step) && Told(c, s.procs[step.pid], |s.table|, r)
    requires step.action.RunDrizzle?
    requires |Drizzle(s.procs[step.pid].build, s.table)| == |s.procs[step.pid].phase.applied| + |s.procs[step.pid].phase.plan.pending|
    ensures var s' := Apply(c, s, step);
            step.pid < |s'.procs| && Told(c, s'.procs[step.pid], |s'.table|, Noted(r, step.action, s.table))
  {
    hide Plan, Drizzle, Reports;
  }

  lemma {:induction false} CountTold(c: Config, s: State, step: Step, r: Record)
    requires Enabled(s, step) && Told(c, s.procs[step.pid], |s.table|, r)
    requires step.action.CountApplied?
    ensures var s' := Apply(c, s, step);
            step.pid < |s'.procs| && Told(c, s'.procs[step.pid], |s'.table|, Noted(r, step.action, s.table))
  {
    hide Plan, Drizzle, Reports;
    var p, p' := s.procs[step.pid], Apply(c, s, step).procs[step.pid];
    var next := Noted(r, step.action, s.table);
    SuccessReports(c, p', next, p'.phase.outcome);
  }

  lemma {:induction false} EndTold(c: Config, s: State, step: Step, r: Record)
    requires Enabled(s, step) && Told(c, s.procs[step.pid], |s.table|, r)
    requires step.action.Release? || step.action.ReleaseFails? || step.action.SessionEnds? || step.action.Crash?
    ensures var s' := Apply(c, s, step);
            step.pid < |s'.procs| && Told(c, s'.procs[step.pid], |s'.table|, Noted(r, step.action, s.table))
  {
    hide Plan, Drizzle, Reports;
    var p, p' := s.procs[step.pid], Apply(c, s, step).procs[step.pid];
    if !step.action.Crash? {
      SameReports(c, p, p', r, p.phase.outcome);
    }
  }

  lemma {:induction false} FailureReports(c: Config, p: Process, r: Record)
    requires r.failed
    ensures Reports(c, p, r, Failed)
  {
    hide Plan;
  }

  lemma {:induction false} RefusalReports(c: Config, p: Process, r: Record, o: Outcome)
    requires Took(r, true, true, false)
    requires var errors := Plan(p.build, r.read.value, p.amended, c.squashed).errors;
             errors != [] && o == Refused(errors, |r.read.value|)
    ensures Reports(c, p, r, o)
  {
    hide Plan;
  }

  lemma {:induction false} SuccessReports(c: Config, p: Process, r: Record, o: Outcome)
    requires !r.failed && r.read.Some? && r.planned && r.ran && r.counted.Some?
    requires Plan(p.build, r.read.value, p.amended, c.squashed).errors == []
    requires r.counted.value == |r.read.value| + |Plan(p.build, r.read.value, p.amended, c.squashed).pending|
    requires o == Succeeded(|r.read.value|, r.counted.value)
    ensures Reports(c, p, r, o)
  {
    hide Plan;
  }

  lemma {:induction false} SameReports(c: Config, p: Process, p': Process, r: Record, o: Outcome)
    requires p'.build == p.build && p'.amended == p.amended && Reports(c, p, r, o)
    ensures Reports(c, p', r, o)
  {
    hide Plan;
  }

  /** The migrator is run on the table the process read, and adds the pending entries. */
  lemma {:induction false} RunLength(c: Config, s: State, pid: nat)
    requires ValidConfig(c) && Inv(c, s) && Enabled(s, Step(pid, RunDrizzle))
    ensures var p := s.procs[pid];
            |Drizzle(p.build, s.table)| == |p.phase.applied| + |p.phase.plan.pending|
  {
    hide Inv, ValidConfig, Plan, DrizzleRuns, GoodTable, Count;
    RunStep(c, s, pid);
    PlannedTable(c, s, pid);
  }

  lemma {:induction false} PlannedTable(c: Config, s: State, pid: nat)
    requires Inv(c, s) && pid < |s.procs| && s.procs[pid].phase.Planned?
    ensures s.procs[pid].phase.applied == s.table
  {
    hide TableInv, RanInv, LockInv;
    assert ProcInv(c, s, pid);
  }

  // ---------------------------------------------------------------------------------------------
  // Runs

  lemma {:induction false} RunTells(c: Config, states: seq<State>, steps: seq<Step>, i: nat, pid: nat)
    requires ValidConfig(c) && IsRun(c, states, steps) && i < |states| && pid < |states[i].procs|
    ensures Told(c, states[i].procs[pid], |states[i].table|, RecordOf(states, steps, i, pid))
    decreases i
  {
    hide *;
    if i == 0 {
      NothingYet(c, states, steps, pid);
    } else {
      assert |states| == |steps| + 1 by {
        RunLengths(c, states, steps);
      }
      RunStepIs(c, states, steps, i - 1);
      var s, step := states[i - 1], steps[i - 1];
      RunInv(c, states, steps, i - 1);
      OtherProcesses(c, s, step);
      RunTells(c, states, steps, i - 1, pid);
      RecordNext(states, steps, i - 1, pid);
      var r := RecordOf(states, steps, i - 1, pid);
      if step.pid == pid {
        if step.action.RunDrizzle? {
          RunLength(c, s, pid);
        }
        StepTold(c, s, step, r);
      } else if InCriticalSection(s.procs[pid].phase) {
        OneInside(c, s, pid, step);
      } else {
        SizeAside(c, s.procs[pid], |s.table|, |states[i].table|, r);
      }
    }
  }

  lemma {:induction false} NothingYet(c: Config, states: seq<State>, steps: seq<Step>, pid: nat)
    requires IsRun(c, states, steps) && pid < |states[0].procs|
    ensures Told(c, states[0].procs[pid], |states[0].table|, RecordOf(states, steps, 0, pid))
  {
    hide IsBuild, Apply, Enabled;
  }

  lemma {:induction false} RunLengths(c: Config, states: seq<State>, steps: seq<Step>)
    requires IsRun(c, states, steps)
    ensures |states| == |steps| + 1
  {
    hide Apply, Init, Enabled;
  }

  lemma {:induction false} RunStepIs(c: Config, states: seq<State>, steps: seq<Step>, i: nat)
    requires IsRun(c, states, steps) && i < |steps|
    ensures |states| == |steps| + 1 && Enabled(states[i], steps[i]) && states[i + 1] == Apply(c, states[i], steps[i])
    ensures steps[i].pid < |states[i].procs|
  {
    hide Apply, Init;
  }

  lemma {:induction false} RecordNext(states: seq<State>, steps: seq<Step>, i: nat, pid: nat)
    requires i < |steps| < |states|
    ensures var r := RecordOf(states, steps, i, pid);
            RecordOf(states, steps, i + 1, pid) == if steps[i].pid == pid then Noted(r, steps[i].action, states[i].table) else r
  {
    hide Noted;
  }

  lemma {:induction false} SizeAside(c: Config, p: Process, m: nat, n: nat, r: Record)
    requires Told(c, p, m, r) && !InCriticalSection(p.phase)
    ensures Told(c, p, n, r)
  {
  }

  /** Of a run that is over, the steps it took decide the outcome, its numbers and its errors. */
  lemma {:induction false} OutcomeIs(c: Config, states: seq<State>, steps: seq<Step>, i: nat, pid: nat)
    requires ValidConfig(c) && IsRun(c, states, steps) && i < |states| && pid < |states[i].procs|
    requires states[i].procs[pid].phase.Done?
    ensures Reports(c, states[i].procs[pid], RecordOf(states, steps, i, pid), states[i].procs[pid].phase.outcome)
  {
    RunTells(c, states, steps, i, pid);
    hide ValidConfig, Reports, Apply, Enabled;
  }
}
