/**
 * A CSV run: one background executor, any number of cancel requests
 * (radar-api/src/csv_runner.rs).
 *
 * Every statement on the job row is one atomic step. A flag on a step tells
 * whether its statement succeeded; the source ignores most failures.
 */
module CsvRunner {
  import opened RowDispatch

  datatype JobStatus = Pending | Running | Cancelled | Completed | CompletedWithFailures | Failed

  // The columns of the job row that change, and the result rows.
  datatype Job = Job(status: JobStatus, completedRows: nat, errorCount: nat, results: seq<RowOutcome>)

  // ---------------------------------------------------------------------
  // Statements
  // ---------------------------------------------------------------------

  function SetRunning(j: Job): Job {
    j.(status := Running)
  }

  predicate Cancellable(j: Job) {
    j.status == Pending || j.status == Running
  }

  function CancelledJob(j: Job): Job {
    if Cancellable(j) then j.(status := Cancelled) else j
  }

  function WithResult(j: Job, o: RowOutcome): Job {
    j.(results := j.results + [o])
  }

  function WithProgress(j: Job, completed: nat, errors: nat): Job {
    j.(completedRows := completed, errorCount := errors)
  }

  function FinalStatus(errors: nat, executorFailed: bool): JobStatus {
    if executorFailed then Failed else if errors > 0 then CompletedWithFailures else Completed
  }

  function Finalized(j: Job, completed: nat, errors: nat, executorFailed: bool): Job {
    if j.status == Cancelled then j
    else j.(status := FinalStatus(errors, executorFailed), completedRows := completed, errorCount := errors)
  }

  // ---------------------------------------------------------------------
  // Executor and cancellers as one machine
  // ---------------------------------------------------------------------

  datatype Pc =
    | NotStarted
    | AtCheck                     // about to read the status before a row
    | AtRow                       // about to send a row
    | AtInsert(o: RowOutcome)     // about to record its outcome
    | AtProgress                  // about to write the counters
    | AtFinalize(failed: bool)
    | Ended
    | Dead                        // the process went down with the executor in it

  // One dispatched row and whether recording it succeeded.
  datatype Attempt = Attempt(outcome: RowOutcome, stored: bool)

  datatype State = State(job: Job, pc: Pc, completed: nat, errors: nat, log: seq<Attempt>)

  datatype Event =
    | Begin(ok: bool)
    | Check(readOk: bool)
    | Send(o: RowOutcome)
    | Record(ok: bool)
    | Progress(ok: bool)
    | Finalize(ok: bool)
    | Cancel
    | Crash

  function Step(total: nat, s: State, e: Event): State {
    match e
    case Begin(ok) =>
      if s.pc != NotStarted then s
      else s.(job := if ok then SetRunning(s.job) else s.job, pc := AtCheck)
    case Check(readOk) =>
      if s.pc != AtCheck then s
      else if s.completed >= total then s.(pc := AtFinalize(false))
      else if readOk && s.job.status == Cancelled then s.(pc := AtFinalize(false))
      else s.(pc := AtRow)
    case Send(o) =>
      if s.pc != AtRow || o.rowNumber != s.completed + 1 then s
      else s.(pc := AtInsert(o), errors := s.errors + if FailedRow(o) then 1 else 0)
    case Record(ok) =>
      if !s.pc.AtInsert? then s
      else s.(job := if ok then WithResult(s.job, s.pc.o) else s.job,
              pc := AtProgress,
              completed := s.completed + 1,
              log := s.log + [Attempt(s.pc.o, ok)])
    case Progress(ok) =>
      if s.pc != AtProgress then s
      else if ok then s.(job := WithProgress(s.job, s.completed, s.errors), pc := AtCheck)
      else s.(pc := AtFinalize(true))
    case Finalize(ok) =>
      if !s.pc.AtFinalize? then s
      else s.(job := if ok then Finalized(s.job, s.completed, s.errors, s.pc.failed) else s.job, pc := Ended)
    case Cancel => s.(job := CancelledJob(s.job))
    case Crash => if s.pc == NotStarted || s.pc == Ended then s else s.(pc := Dead)
  }

  function Run(total: nat, s: State, events: seq<Event>): State
    decreases |events|
  {
    if events == [] then s else Run(total, Step(total, s, events[0]), events[1..])
  }

  const NEW_JOB := Job(Pending, 0, 0, [])

  const START := State(NEW_JOB, NotStarted, 0, 0, [])

  lemma {:induction false} RunConcat(total: nat, s: State, a: seq<Event>, b: seq<Event>)
    ensures Run(total, s, a + b) == Run(total, Run(total, s, a), b)
    decreases |a|
  {
    if a == [] {
      assert a + b == b;
    } else {
      assert (a + b)[0] == a[0] && (a + b)[1..] == a[1..] + b;
      RunConcat(total, Step(total, s, a[0]), a[1..], b);
    }
  }

  lemma {:induction false} RunThen(total: nat, s: State, a: seq<Event>, e: Event)
    ensures Run(total, s, a + [e]) == Step(total, Run(total, s, a), e)
  {
    RunConcat(total, s, a, [e]);
    assert [e][1..] == [];
  }

  // ---------------------------------------------------------------------
  // The same as code
  // ---------------------------------------------------------------------

  // What the targets answer, and what the other parties and the database do
  // around the executor's `t`-th step: a cancel request just before it, and
  // whether its statement succeeds.
  datatype Env = Env(outcomes: nat -> RowOutcome, cancelBefore: nat -> bool, ok: nat -> bool)

  ghost predicate EnvOk(env: Env) {
    forall i: nat :: env.outcomes(i).rowNumber == i + 1
  }

  predicate Over(pc: Pc) {
    pc == Ended || pc == Dead
  }

  predicate InBounds(total: nat, s: State) {
    s.pc == AtRow || s.pc.AtInsert? ==> s.completed < total
  }

  function NextEvent(env: Env, s: State, t: nat): Event
    requires !Over(s.pc)
  {
    match s.pc
    case NotStarted => Begin(env.ok(t))
    case AtCheck => Check(env.ok(t))
    case AtRow => Send(env.outcomes(s.completed))
    case AtInsert(_) => Record(env.ok(t))
    case AtProgress => Progress(env.ok(t))
    case AtFinalize(_) => Finalize(env.ok(t))
  }

  function Disturbed(env: Env, s: State, t: nat): State {
    if env.cancelBefore(t) then s.(job := CancelledJob(s.job)) else s
  }

  function Moved(total: nat, env: Env, s: State, t: nat): State
    requires !Over(s.pc)
  {
    Step(total, Disturbed(env, s, t), NextEvent(env, s, t))
  }

  function Rank(pc: Pc): nat {
    match pc
    case NotStarted => 6
    case AtProgress => 5
    case AtCheck => 4
    case AtRow => 3
    case AtInsert(_) => 2
    case AtFinalize(_) => 1
    case _ => 0
  }

  // Where the executor ends from its `t`-th step on.
  ghost function Drive(total: nat, env: Env, s: State, t: nat): (end: State)
    requires EnvOk(env) && InBounds(total, s)
    ensures Over(end.pc)
    decreases if s.completed < total then total - s.completed else 0, Rank(s.pc)
  {
    if Over(s.pc) then s else Drive(total, env, Moved(total, env, s, t), t + 1)
  }

  lemma DriveOn(total: nat, env: Env, s: State, t: nat, next: State)
    requires EnvOk(env) && InBounds(total, s) && !Over(s.pc) && next == Moved(total, env, s, t)
    ensures InBounds(total, next) && Drive(total, env, s, t) == Drive(total, env, next, t + 1)
  {
  }

  // It is one of the runs of the machine.
  lemma {:induction false} DriveIsARun(total: nat, env: Env, s: State, t: nat) returns (events: seq<Event>)
    requires EnvOk(env) && InBounds(total, s)
    ensures Run(total, s, events) == Drive(total, env, s, t)
    decreases if s.completed < total then total - s.completed else 0, Rank(s.pc)
  {
    if Over(s.pc) {
      events := [];
    } else {
      var cancels := if env.cancelBefore(t) then [Cancel] else [];
      var e := NextEvent(env, s, t);
      var rest := DriveIsARun(total, env, Moved(total, env, s, t), t + 1);
      RunThen(total, s, [], Cancel);
      assert [] + [Cancel] == [Cancel];
      RunThen(total, s, cancels, e);
      RunConcat(total, s, cancels + [e], rest);
      events := cancels + [e] + rest;
    }
  }

  class CsvRunJob {
    var status: JobStatus
    var completedRows: nat
    var errorCount: nat
    var results: seq<RowOutcome>

    ghost function View(): Job
      reads this
    {
      Job(status, completedRows, errorCount, results)
    }

    constructor ()
      ensures View() == NEW_JOB
    {
      status, completedRows, errorCount, results := Pending, 0, 0, [];
    }

    // DELETE /v1/csv-runs/:id
    method CancelRun() returns (found: bool)
      modifies this
      ensures found == Cancellable(old(View()))
      ensures View() == CancelledJob(old(View()))
    {
      found := status == Pending || status == Running;
      if found {
        status := Cancelled;
      }
    }

    method SetJobRunning(ok: bool)
      modifies this
      ensures View() == if ok then SetRunning(old(View())) else old(View())
    {
      if ok {
        status := Running;
      }
    }

    method JobIsCancelled(ok: bool) returns (cancelled: bool)
      ensures cancelled <==> ok && status == Cancelled
    {
      cancelled := ok && status == Cancelled;
    }

    method InsertResult(o: RowOutcome, ok: bool)
      modifies this
      ensures View() == if ok then WithResult(old(View()), o) else old(View())
    {
      if ok {
        results := results + [o];
      }
    }

    method UpdateProgress(completed: nat, errors: nat, ok: bool)
      modifies this
      ensures View() == if ok then WithProgress(old(View()), completed, errors) else old(View())
      ensures ok ==> completedRows == completed && errorCount == errors
    {
      if ok {
        completedRows, errorCount := completed, errors;
      }
    }

    method FinalizeJob(completed: nat, errors: nat, executorFailed: bool, ok: bool)
      modifies this
      ensures View() == if ok then Finalized(old(View()), completed, errors, executorFailed) else old(View())
      ensures ok && old(status) != Cancelled ==> completedRows == completed && errorCount == errors
    {
      if ok && status != Cancelled {
        status := if executorFailed then Failed else if errors > 0 then CompletedWithFailures else Completed;
        completedRows, errorCount := completed, errors;
      }
    }

    // The cancel request that may come in before a step of the executor.
    method Interference(env: Env, t: nat)
      modifies this
      ensures View() == if env.cancelBefore(t) then CancelledJob(old(View())) else old(View())
    {
      if env.cancelBefore(t) {
        var _ := CancelRun();
      }
    }

    // Records the outcome of a row and writes the counters.
    method RecordRow(total: nat, env: Env, t: nat, completed: nat, errors: nat, outcome: RowOutcome,
        ghost log: seq<Attempt>)
      returns (ok: bool, ghost attempt: Attempt)
      requires EnvOk(env) && completed < total
      modifies this
      ensures Drive(total, env, State(old(View()), AtInsert(outcome), completed, errors, log), t)
           == var pc := if ok then AtCheck else AtFinalize(true);
              Drive(total, env, State(View(), pc, completed + 1, errors, log + [attempt]), t + 2)
    {
      ghost var s0 := State(View(), AtInsert(outcome), completed, errors, log);
      Interference(env, t);
      InsertResult(outcome, env.ok(t));
      attempt := Attempt(outcome, env.ok(t));
      ghost var s1 := State(View(), AtProgress, completed + 1, errors, log + [attempt]);
      DriveOn(total, env, s0, t, s1);

      Interference(env, t + 1);
      ok := env.ok(t + 1);
      UpdateProgress(completed + 1, errors, ok);
      DriveOn(total, env, s1, t + 1,
              State(View(), if ok then AtCheck else AtFinalize(true), completed + 1, errors, log + [attempt]));
    }

    // Sends one row, and does that.
    method RunRow(total: nat, env: Env, t: nat, completed: nat, errors: nat, ghost log: seq<Attempt>)
      returns (errorCount: nat, ok: bool, ghost attempt: Attempt)
      requires EnvOk(env) && completed < total
      modifies this
      ensures Drive(total, env, State(old(View()), AtRow, completed, errors, log), t)
           == var pc := if ok then AtCheck else AtFinalize(true);
              Drive(total, env, State(View(), pc, completed + 1, errorCount, log + [attempt]), t + 3)
    {
      ghost var s0 := State(View(), AtRow, completed, errors, log);
      Interference(env, t);
      var outcome := env.outcomes(completed);
      errorCount := errors;
      if outcome.error.Some? || outcome.httpStatus.None? || outcome.httpStatus.value >= 400 {
        errorCount := errorCount + 1;
      }
      DriveOn(total, env, s0, t, State(View(), AtInsert(outcome), completed, errorCount, log));
      ok, attempt := RecordRow(total, env, t + 1, completed, errorCount, outcome, log);
    }

    // The executor, row by row.
    method RunRows(total: nat, env: Env, from: nat)
      returns (completed: nat, errorCount: nat, failed: bool, t: nat, ghost log: seq<Attempt>)
      requires EnvOk(env)
      modifies this
      ensures Drive(total, env, State(old(View()), AtCheck, 0, 0, []), from)
           == Drive(total, env, State(View(), AtFinalize(failed), completed, errorCount, log), t)
    {
      completed, errorCount, failed, t, log := 0, 0, false, from, [];
      ghost var start := State(View(), AtCheck, 0, 0, []);
      while completed < total
        invariant completed <= total && !failed
        invariant Drive(total, env, start, from)
               == Drive(total, env, State(View(), AtCheck, completed, errorCount, log), t)
        decreases total - completed
      {
        ghost var s := State(View(), AtCheck, completed, errorCount, log);
        Interference(env, t);
        var cancelled := JobIsCancelled(env.ok(t));
        assert Moved(total, env, s, t)
            == State(View(), if cancelled then AtFinalize(false) else AtRow, completed, errorCount, log);
        t := t + 1;
        if cancelled {
          return;
        }
        var ok;
        ghost var attempt;
        errorCount, ok, attempt := RunRow(total, env, t, completed, errorCount, log);
        log := log + [attempt];
        completed := completed + 1;
        t := t + 3;
        if !ok {
          failed := true;
          return;
        }
      }
      ghost var s := State(View(), AtCheck, completed, errorCount, log);
      Interference(env, t);
      assert Moved(total, env, s, t) == State(View(), AtFinalize(false), completed, errorCount, log);
      t := t + 1;
    }

    method ExecuteCsvRun(total: nat, env: Env)
      requires EnvOk(env)
      modifies this
      ensures View() == Drive(total, env, State(old(View()), NotStarted, 0, 0, []), 0).job
    {
      ghost var s0 := State(View(), NotStarted, 0, 0, []);
      Interference(env, 0);
      SetJobRunning(env.ok(0));
      assert Moved(total, env, s0, 0) == State(View(), AtCheck, 0, 0, []);
      var completed, errorCount, failed, t;
      ghost var log;
      completed, errorCount, failed, t, log := RunRows(total, env, 1);
      ghost var s1 := State(View(), AtFinalize(failed), completed, errorCount, log);
      Interference(env, t);
      FinalizeJob(completed, errorCount, failed, env.ok(t));
      assert Moved(total, env, s1, t) == State(View(), Ended, completed, errorCount, log);
    }
  }

  // ---------------------------------------------------------------------
  // The invariant
  // ---------------------------------------------------------------------

  function Failures(log: seq<Attempt>): nat {
    if log == [] then 0
    else Failures(log[..|log| - 1]) + if FailedRow(log[|log| - 1].outcome) then 1 else 0
  }

  // The outcomes whose recording succeeded, in order.
  function StoredOutcomes(log: seq<Attempt>): seq<RowOutcome> {
    if log == [] then []
    else StoredOutcomes(log[..|log| - 1]) + if log[|log| - 1].stored then [log[|log| - 1].outcome] else []
  }

  ghost predicate InFlight(s: State) {
    s.pc == AtRow || s.pc.AtInsert?
  }

  // The executor has been told to stop, or has nothing left, or cannot go on.
  ghost predicate MayFinalize(total: nat, s: State) {
    s.pc.AtFinalize? ==> s.pc.failed || s.completed == total || s.job.status == Cancelled
  }

  ghost predicate StatusOk(total: nat, s: State) {
    match s.job.status
    case Pending | Running | Cancelled => true
    case Completed => s.pc == Ended && s.completed == total && s.errors == 0
                      && s.job.completedRows == total && s.job.errorCount == 0
    case CompletedWithFailures => s.pc == Ended && s.completed == total && s.errors > 0
                                  && s.job.completedRows == total && s.job.errorCount == s.errors
    case Failed => s.pc == Ended && s.completed > 0
                   && s.job.completedRows == s.completed && s.job.errorCount == s.errors
  }

  ghost predicate LogOk(s: State) {
    && |s.log| == s.completed
    && (forall k :: 0 <= k < |s.log| ==> s.log[k].outcome.rowNumber == k + 1)
    && s.job.results == StoredOutcomes(s.log)
  }

  ghost predicate CountersOk(total: nat, s: State) {
    && s.completed <= total
    && (s.pc != Dead ==> s.errors == Failures(s.log) + (if s.pc.AtInsert? && FailedRow(s.pc.o) then 1 else 0))
    && s.job.completedRows <= s.completed == |s.log|
    && s.job.errorCount == Failures(s.log[..s.job.completedRows])
    && (s.pc == AtRow || s.pc.AtInsert? ==> s.completed < total)
    && (s.pc == AtProgress || (s.pc.AtFinalize? && s.pc.failed) ==> s.completed > 0)
    && (s.pc.AtInsert? ==> s.pc.o.rowNumber == s.completed + 1)
  }

  ghost predicate FreshOk(s: State) {
    s.pc == NotStarted ==> s.completed == 0 && (s.job.status == Pending || s.job.status == Cancelled)
  }

  ghost predicate Inv(total: nat, s: State) {
    LogOk(s) && CountersOk(total, s) && MayFinalize(total, s) && StatusOk(total, s) && FreshOk(s)
  }

  lemma StepKeepsLog(total: nat, s: State, e: Event)
    requires LogOk(s) && CountersOk(total, s) && FreshOk(s)
    ensures LogOk(Step(total, s, e))
  {
    if e.Record? && s.pc.AtInsert? {
      RecordKeepsLog(total, s, e.ok);
    }
  }

  lemma RecordKeepsLog(total: nat, s: State, ok: bool)
    requires LogOk(s) && CountersOk(total, s) && s.pc.AtInsert?
    ensures LogOk(Step(total, s, Record(ok)))
  {
    var t := Step(total, s, Record(ok));
    StoredOneMore(s.log, Attempt(s.pc.o, ok));
    assert forall k :: 0 <= k < |s.log| ==> t.log[k] == s.log[k];
  }

  lemma {:induction false} StoredOneMore(log: seq<Attempt>, a: Attempt)
    ensures StoredOutcomes(log + [a]) == StoredOutcomes(log) + if a.stored then [a.outcome] else []
  {
  }

  lemma StepKeepsCounters(total: nat, s: State, e: Event)
    requires LogOk(s) && CountersOk(total, s)
    ensures CountersOk(total, Step(total, s, e))
  {
    assert s.log[..|s.log|] == s.log;
    if e.Record? && s.pc.AtInsert? {
      RecordKeepsCounters(total, s, e.ok);
    }
  }

  lemma RecordKeepsCounters(total: nat, s: State, ok: bool)
    requires LogOk(s) && CountersOk(total, s) && s.pc.AtInsert?
    ensures CountersOk(total, Step(total, s, Record(ok)))
  {
    var log := s.log + [Attempt(s.pc.o, ok)];
    assert log[..|log| - 1] == s.log;
    assert log[..s.job.completedRows] == s.log[..s.job.completedRows];
  }

  lemma StepKeepsInv(total: nat, s: State, e: Event)
    requires Inv(total, s)
    ensures Inv(total, Step(total, s, e))
  {
    StepKeepsLog(total, s, e);
    StepKeepsCounters(total, s, e);
  }

  lemma {:induction false} RunKeepsInv(total: nat, s: State, events: seq<Event>)
    requires Inv(total, s)
    ensures Inv(total, Run(total, s, events))
    decreases |events|
  {
    if events != [] {
      StepKeepsInv(total, s, events[0]);
      RunKeepsInv(total, Step(total, s, events[0]), events[1..]);
    }
  }

  lemma {:induction false} RunIsOk(total: nat, events: seq<Event>)
    ensures Inv(total, Run(total, START, events))
  {
    RunKeepsInv(total, START, events);
  }

  // ---------------------------------------------------------------------
  // What holds in every run
  // ---------------------------------------------------------------------

  lemma {:induction false} FailuresBound(log: seq<Attempt>)
    ensures Failures(log) <= |log|
  {
    if log != [] {
      FailuresBound(log[..|log| - 1]);
    }
  }

  // At every moment the counters of the job row describe one prefix of the rows
  // sent so far: how many, and exactly how many of those failed.
  lemma {:induction false} CountersDescribeAPrefix(total: nat, events: seq<Event>)
    ensures var s := Run(total, START, events);
            && s.job.completedRows <= |s.log| <= total
            && s.job.errorCount == Failures(s.log[..s.job.completedRows])
            && s.job.errorCount <= s.job.completedRows
            && forall k :: 0 <= k < |s.log| ==> s.log[k].outcome.rowNumber == k + 1
  {
    RunIsOk(total, events);
    var s := Run(total, START, events);
    FailuresBound(s.log[..s.job.completedRows]);
  }

  ghost predicate AllKept(log: seq<Attempt>) {
    forall k :: 0 <= k < |log| ==> log[k].stored
  }

  lemma {:induction false} AllStored(log: seq<Attempt>)
    requires AllKept(log)
    ensures StoredOutcomes(log) == seq(|log|, k requires 0 <= k < |log| => log[k].outcome)
  {
    if log != [] {
      AllStored(log[..|log| - 1]);
    }
  }

  // The result rows are, in order, the rows sent whose insert succeeded: without
  // failing inserts, rows 1, 2, ... and one for each row sent and recorded.
  lemma {:induction false} ResultsAreTheRowsInOrder(total: nat, events: seq<Event>)
    ensures var s := Run(total, START, events); s.job.results == StoredOutcomes(s.log) && |s.log| == s.completed
    ensures var s := Run(total, START, events);
            AllKept(s.log) ==>
              && |s.job.results| == s.completed
              && forall k :: 0 <= k < |s.job.results| ==>
                   s.job.results[k] == s.log[k].outcome && s.job.results[k].rowNumber == k + 1
  {
    RunIsOk(total, events);
    var s := Run(total, START, events);
    if AllKept(s.log) {
      AllStored(s.log);
    }
  }

  // Between two rows the counters of the job row are exact.
  ghost predicate Current(s: State) {
    (s.pc == AtCheck || s.pc == AtRow || s.pc.AtInsert?) ==>
      s.job.completedRows == |s.log| && s.job.errorCount == Failures(s.log)
  }

  lemma StepKeepsCurrent(total: nat, s: State, e: Event)
    requires Inv(total, s) && Current(s) && (s.pc == NotStarted ==> s.job.completedRows == s.job.errorCount == 0)
    ensures var t := Step(total, s, e);
            Current(t) && (t.pc == NotStarted ==> t.job.completedRows == t.job.errorCount == 0)
  {
  }

  lemma {:induction false} RunKeepsCurrent(total: nat, s: State, events: seq<Event>)
    requires Inv(total, s) && Current(s) && (s.pc == NotStarted ==> s.job.completedRows == s.job.errorCount == 0)
    ensures Current(Run(total, s, events))
    decreases |events|
  {
    if events != [] {
      StepKeepsInv(total, s, events[0]);
      StepKeepsCurrent(total, s, events[0]);
      RunKeepsCurrent(total, Step(total, s, events[0]), events[1..]);
    }
  }

  // Before every row is sent, the counters in the job row are those of all rows before it.
  lemma {:induction false} CountersAreCurrent(total: nat, events: seq<Event>)
    ensures var s := Run(total, START, events);
            s.pc == AtRow ==> s.job.completedRows == |s.log| && s.job.errorCount == Failures(s.log)
  {
    RunKeepsCurrent(total, START, events);
  }

  // When the counters cannot be written, no further row is sent, and unless the job is or
  // gets cancelled it ends as failed, with the true counters.
  lemma {:induction false} ProgressFailureEndsTheRun(total: nat, before: seq<Event>, after: seq<Event>)
    requires Run(total, START, before).pc == AtProgress
    ensures var s, t := Run(total, START, before), Run(total, START, before + [Progress(false)] + after);
            && t.log == s.log
            && (t.pc == Ended && t.job.status != s.job.status && t.job.status != Cancelled ==>
                  t.job.status == Failed && t.job.completedRows == |s.log| && t.job.errorCount == Failures(s.log))
  {
    var s := Run(total, START, before);
    RunIsOk(total, before);
    RunThen(total, START, before, Progress(false));
    RunConcat(total, START, before + [Progress(false)], after);
    AbortedEnds(total, Step(total, s, Progress(false)), after);
  }

  lemma {:induction false} AbortedEnds(total: nat, s: State, events: seq<Event>)
    requires s.pc == AtFinalize(true) || s.pc == Ended || s.pc == Dead
    ensures var t := Run(total, s, events);
            && t.log == s.log
            && (t.job == s.job || t.job.status == Cancelled
                || (s.pc == AtFinalize(true) && t.job.status == Failed
                    && t.job.completedRows == s.completed && t.job.errorCount == s.errors))
    decreases |events|
  {
    if events != [] {
      AbortedEnds(total, Step(total, s, events[0]), events[1..]);
    }
  }

  // A final status means what it says.
  lemma {:induction false} FinalStatusIsTrue(total: nat, events: seq<Event>)
    ensures var s := Run(total, START, events);
            && (s.job.status == Completed ==> |s.log| == s.job.completedRows == total && Failures(s.log) == 0)
            && (s.job.status == CompletedWithFailures ==>
                  |s.log| == s.job.completedRows == total && s.job.errorCount == Failures(s.log) > 0)
            && (s.job.status == Failed ==> s.job.completedRows == |s.log| > 0 && s.job.errorCount == Failures(s.log))
  {
    RunIsOk(total, events);
    var s := Run(total, START, events);
    assert s.log[..|s.log|] == s.log;
  }

  // ---------------------------------------------------------------------
  // Cancelling
  // ---------------------------------------------------------------------

  // Once the executor has marked the job as running, a cancellation is final.
  lemma {:induction false} CancelledStays(total: nat, s: State, events: seq<Event>)
    requires s.pc != NotStarted && s.job.status == Cancelled
    ensures Run(total, s, events).job.status == Cancelled && Run(total, s, events).pc != NotStarted
    decreases |events|
  {
    if events != [] {
      CancelledStays(total, Step(total, s, events[0]), events[1..]);
    }
  }

  function UnreadableChecks(events: seq<Event>): nat {
    if events == [] then 0
    else (if events[0] == Check(false) then 1 else 0) + UnreadableChecks(events[1..])
  }

  lemma {:induction false} RowsAfterCancel(total: nat, s: State, events: seq<Event>)
    requires s.pc != NotStarted && s.job.status == Cancelled
    ensures |Run(total, s, events).log| <= |s.log| + (if InFlight(s) then 1 else 0) + UnreadableChecks(events)
    decreases |events|
  {
    if events != [] {
      RowsAfterCancel(total, Step(total, s, events[0]), events[1..]);
    }
  }

  // After a cancellation at most the row in flight is still recorded, and one
  // more for every read of the status that fails.
  lemma {:induction false} AtMostOneMoreRow(total: nat, before: seq<Event>, after: seq<Event>)
    requires var s := Run(total, START, before); s.pc != NotStarted && s.job.status == Cancelled
    ensures |Run(total, START, before + after).log| <= |Run(total, START, before).log| + 1 + UnreadableChecks(after)
  {
    RunConcat(total, START, before, after);
    RowsAfterCancel(total, Run(total, START, before), after);
  }

  lemma {:induction false} FirstEvent(total: nat, s: State, e: Event, rest: seq<Event>)
    ensures Run(total, s, [e] + rest) == Run(total, Step(total, s, e), rest)
    ensures UnreadableChecks([e] + rest) == (if e == Check(false) then 1 else 0) + UnreadableChecks(rest)
  {
    assert ([e] + rest)[1..] == rest;
  }

  // The row in flight and `n` more, after as many failed reads of the status.
  function Unheeded(outcomes: nat -> RowOutcome, completed: nat, n: nat): seq<Event>
    decreases n
  {
    [Send(outcomes(completed))] + ([Record(true)] +
      if n == 0 then [] else [Progress(true)] + ([Check(false)] + Unheeded(outcomes, completed + 1, n - 1)))
  }

  lemma RowIsRecorded(total: nat, s: State, o: RowOutcome, rest: seq<Event>) returns (t: State)
    requires s.pc == AtRow && o.rowNumber == s.completed + 1
    ensures Run(total, s, [Send(o)] + ([Record(true)] + rest)) == Run(total, t, rest)
    ensures UnreadableChecks([Send(o)] + ([Record(true)] + rest)) == UnreadableChecks(rest)
    ensures t.pc == AtProgress && t.completed == s.completed + 1 && |t.log| == |s.log| + 1
  {
    FirstEvent(total, s, Send(o), [Record(true)] + rest);
    FirstEvent(total, Step(total, s, Send(o)), Record(true), rest);
    t := Step(total, Step(total, s, Send(o)), Record(true));
  }

  lemma NextRowIsTaken(total: nat, s: State, rest: seq<Event>) returns (t: State)
    requires s.pc == AtProgress && s.completed < total
    ensures Run(total, s, [Progress(true)] + ([Check(false)] + rest)) == Run(total, t, rest)
    ensures UnreadableChecks([Progress(true)] + ([Check(false)] + rest)) == 1 + UnreadableChecks(rest)
    ensures t.pc == AtRow && t.completed == s.completed && t.log == s.log
  {
    FirstEvent(total, s, Progress(true), [Check(false)] + rest);
    FirstEvent(total, Step(total, s, Progress(true)), Check(false), rest);
    t := Step(total, Step(total, s, Progress(true)), Check(false));
  }

  lemma {:induction false} UnheededRows(total: nat, s: State, outcomes: nat -> RowOutcome, n: nat)
    requires s.pc == AtRow && s.completed + n < total
    requires forall i: nat :: outcomes(i).rowNumber == i + 1
    ensures var events := Unheeded(outcomes, s.completed, n);
            |Run(total, s, events).log| == |s.log| + 1 + n && UnreadableChecks(events) == n
    decreases n
  {
    if n == 0 {
      var _ := RowIsRecorded(total, s, outcomes(s.completed), []);
    } else {
      var rest := Unheeded(outcomes, s.completed + 1, n - 1);
      var recorded := RowIsRecorded(total, s, outcomes(s.completed), [Progress(true)] + ([Check(false)] + rest));
      var next := NextRowIsTaken(total, recorded, rest);
      UnheededRows(total, next, outcomes, n - 1);
    }
  }

  // That bound is reached for every number of failed reads.
  lemma {:induction false} SomeRunsReachTheBound(outcomes: nat -> RowOutcome, n: nat)
    requires forall i: nat :: outcomes(i).rowNumber == i + 1
    ensures exists before, after :: var s := Run(n + 1, START, before);
              && s.pc != NotStarted && s.job.status == Cancelled && UnreadableChecks(after) == n
              && |Run(n + 1, START, before + after).log| == |s.log| + 1 + UnreadableChecks(after)
  {
    var before, after := [Begin(true), Check(true)] + [Cancel], Unheeded(outcomes, 0, n);
    RunOf2(n + 1, START, Begin(true), Check(true));
    RunThen(n + 1, START, [Begin(true), Check(true)], Cancel);
    UnheededRows(n + 1, Run(n + 1, START, before), outcomes, n);
    RunConcat(n + 1, START, before, after);
  }

  // After a crash of a started executor no row is sent and nothing is recorded any more;
  // a cancellation is all that can still happen to the job. One that has not started, or
  // has ended, does not notice.
  lemma {:induction false} CrashEndsTheRun(total: nat, s: State, events: seq<Event>)
    ensures var t := Step(total, s, Crash); var u := Run(total, t, events);
            if s.pc == NotStarted || s.pc == Ended then t == s
            else && u.log == s.log && u.job.results == s.job.results && u.job.completedRows == s.job.completedRows
                 && u.job.errorCount == s.job.errorCount
                 && (u.job.status == s.job.status || (Cancellable(s.job) && u.job.status == Cancelled))
  {
    var t := Step(total, s, Crash);
    if t.pc == Dead {
      DeadStays(total, t, events);
    }
  }

  lemma {:induction false} DeadStays(total: nat, s: State, events: seq<Event>)
    requires s.pc == Dead
    ensures var u := Run(total, s, events); u == s || (Cancellable(s.job) && u == s.(job := CancelledJob(s.job)))
    decreases |events|
  {
    if events != [] {
      DeadStays(total, Step(total, s, events[0]), events[1..]);
    }
  }

  // Some cancel request found a job it could cancel.
  predicate CancelTakes(total: nat, s: State, events: seq<Event>)
    decreases |events|
  {
    events != [] && ((events[0] == Cancel && Cancellable(s.job))
                     || CancelTakes(total, Step(total, s, events[0]), events[1..]))
  }

  lemma {:induction false} CancelledOnlyByCancel(total: nat, s: State, events: seq<Event>)
    requires s.pc != NotStarted
    ensures Run(total, s, events).job.status == Cancelled
       <==> s.job.status == Cancelled || CancelTakes(total, s, events)
    decreases |events|
  {
    if s.job.status == Cancelled {
      CancelledStays(total, s, events);
    } else if events != [] {
      CancelledOnlyByCancel(total, Step(total, s, events[0]), events[1..]);
    }
  }

  // A run ends up cancelled exactly when a request was accepted after the job
  // had been marked as running: one accepted earlier is overwritten, unless
  // marking the job failed.
  lemma {:induction false} CancelSurvivesExactly(total: nat, before: seq<Event>, ok: bool, after: seq<Event>)
    requires Run(total, START, before).pc == NotStarted
    ensures Run(total, START, before + [Begin(ok)] + after).job.status == Cancelled
       <==> || CancelTakes(total, Run(total, START, before + [Begin(ok)]), after)
            || (!ok && Run(total, START, before).job.status == Cancelled)
  {
    RunThen(total, START, before, Begin(ok));
    RunConcat(total, START, before + [Begin(ok)], after);
    RunIsOk(total, before);
    CancelledOnlyByCancel(total, Run(total, START, before + [Begin(ok)]), after);
  }

  lemma {:induction false} RunOf2(total: nat, s: State, a: Event, b: Event)
    ensures Run(total, s, [a, b]) == Step(total, Step(total, s, a), b)
  {
    RunThen(total, s, [a], b);
    RunThen(total, s, [], a);
    assert [a] + [b] == [a, b] && [] + [a] == [a];
  }

  // A job with one row is run, whatever its status was,
  lemma {:induction false} OneRowIsSent(job: Job, o: RowOutcome)
    requires o.rowNumber == 1 && !FailedRow(o)
    ensures Run(1, State(job, NotStarted, 0, 0, []), [Begin(true), Check(true)] + [Send(o), Record(true)])
         == State(Job(Running, job.completedRows, job.errorCount, job.results + [o]), AtProgress, 1, 0,
                  [Attempt(o, true)])
  {
    var s0 := State(job, NotStarted, 0, 0, []);
    RunConcat(1, s0, [Begin(true), Check(true)], [Send(o), Record(true)]);
    RunOf2(1, s0, Begin(true), Check(true));
    var s1 := State(SetRunning(job), AtRow, 0, 0, []);
    assert Run(1, s0, [Begin(true), Check(true)]) == s1;
    RunOf2(1, s1, Send(o), Record(true));
    assert [] + [Attempt(o, true)] == [Attempt(o, true)];
  }

  // and completed.
  lemma {:induction false} LastRowCompletes(job: Job, log: seq<Attempt>)
    requires job.status == Running
    ensures Run(1, State(job, AtProgress, 1, 0, log), [Progress(true), Check(true)] + [Finalize(true)]).job
         == Job(Completed, 1, 0, job.results)
  {
    var s0 := State(job, AtProgress, 1, 0, log);
    RunThen(1, s0, [Progress(true), Check(true)], Finalize(true));
    RunOf2(1, s0, Progress(true), Check(true));
  }

  // So an accepted cancellation can be followed by a run that sends every row.
  lemma EarlyCancelIsLost(o: RowOutcome)
    requires o.rowNumber == 1 && !FailedRow(o)
    ensures Run(1, START, [Cancel]).job.status == Cancelled
    ensures exists events :: Run(1, START, [Cancel] + events).job == Job(Completed, 1, 0, [o])
  {
    var job := NEW_JOB.(status := Cancelled);
    var s1 := State(job, NotStarted, 0, 0, []);
    RunThen(1, START, [], Cancel);
    assert [] + [Cancel] == [Cancel];
    assert Run(1, START, [Cancel]) == s1;
    var a, b := [Begin(true), Check(true)] + [Send(o), Record(true)], [Progress(true), Check(true)] + [Finalize(true)];
    RunConcat(1, START, [Cancel], a + b);
    RunConcat(1, s1, a, b);
    OneRowIsSent(job, o);
    assert [] + [o] == [o];
    LastRowCompletes(Job(Running, 0, 0, [o]), [Attempt(o, true)]);
  }
}
