/**
 * Which CSV runs the retention job deletes: the statuses named in its statement
 * (radar-api/src/settings.rs), and how a job comes to have one of them
 * (radar-api/src/csv_runner.rs).
 */
module FinishedJobs {
  import opened Retention
  import opened RetentionRuns
  import CsvRunner

  // The text in the status column, as an SQL literal.
  function Literal(status: CsvRunner.JobStatus): string {
    match status
    case Pending => "'pending'"
    case Running => "'running'"
    case Completed => "'completed'"
    case CompletedWithFailures => "'completed_with_failures'"
    case Failed => "'failed'"
    case Cancelled => "'cancelled'"
  }

  ghost predicate Listed(literal: string) {
    exists before, after :: FinishedList() == before + literal + after
  }

  lemma ListedAt(before: string, literal: string, after: string)
    requires FinishedList() == before + literal + after
    ensures Listed(literal)
  {
  }

  lemma CompletedIsListed()
    ensures Listed("'completed'")
  {
    var after := ", " + ("'completed_with_failures'" + (", " + ("'failed'" + (", " + "'cancelled'"))));
    assert FinishedList() == "" + "'completed'" + after;
    ListedAt("", "'completed'", after);
  }

  lemma Behind(before: string, literal: string, after: string, rest: string)
    requires rest == literal + after
    ensures before + rest == before + literal + after
  {
  }

  lemma PartlyFailedIsListed()
    ensures Listed("'completed_with_failures'")
  {
    var after := ", " + ("'failed'" + (", " + "'cancelled'"));
    Behind("'completed'" + ", ", "'completed_with_failures'", after, "'completed_with_failures'" + after);
    ListedAt("'completed'" + ", ", "'completed_with_failures'", after);
  }

  lemma FailedIsListed()
    ensures Listed("'failed'")
  {
    var before, after := "'completed'" + ", " + ("'completed_with_failures'" + ", "), ", " + "'cancelled'";
    Behind("'completed_with_failures'" + ", ", "'failed'", after, "'failed'" + after);
    Behind("'completed'" + ", ", "'completed_with_failures'" + ", ", "'failed'" + after,
           "'completed_with_failures'" + ", " + ("'failed'" + after));
    ListedAt(before, "'failed'", after);
  }

  lemma CancelledIsListed()
    ensures Listed("'cancelled'")
  {
    var before := "'completed'" + ", " + ("'completed_with_failures'" + ", " + ("'failed'" + ", "));
    Behind("'completed'" + ", ", "'completed_with_failures'" + ", " + ("'failed'" + ", "), "'cancelled'",
           "'completed_with_failures'" + ", " + ("'failed'" + ", ") + "'cancelled'");
    ListedAt(before, "'cancelled'", "");
  }

  // No listed status has this letter; both statuses of a job under way have it.
  lemma NotListed(literal: string)
    requires 'g' in literal
    ensures !Listed(literal)
  {
    assert 'g' !in FinishedList();
    forall before: string, after: string ensures 'g' in before + literal + after {
    }
  }

  // The statuses listed in the statement are the four a job ends with.
  lemma ListedExactly(status: CsvRunner.JobStatus)
    ensures Listed(Literal(status)) <==> status != CsvRunner.Pending && status != CsvRunner.Running
  {
    match status
    case Pending =>
      assert Literal(status)[7] == 'g';
      NotListed(Literal(status));
    case Running =>
      assert Literal(status)[7] == 'g';
      NotListed(Literal(status));
    case Completed => CompletedIsListed();
    case CompletedWithFailures => PartlyFailedIsListed();
    case Failed => FailedIsListed();
    case Cancelled => CancelledIsListed();
  }

  // ---------------------------------------------------------------------
  // What is deleted
  // ---------------------------------------------------------------------

  // Whatever the passes, a job is deleted exactly if its status is listed in the
  // statement and some purge of its organisation finds it too old.
  lemma {:induction false} JobIsDeletedExactly(jobs: seq<CsvJob>, passes: seq<Pass>, j: CsvJob)
    requires AllValid(passes) && j in jobs
    ensures j !in JobsAfterAll(jobs, passes)
       <==> Listed(Literal(j.status)) && !AllSpare(passes, Jobs, j.orgId, j.createdAt)
  {
    JobFateOverPasses(jobs, passes, j);
    ListedExactly(j.status);
  }

  // The executor comes to write the final status, and that succeeds.
  predicate FinalWrite(total: nat, s: CsvRunner.State, events: seq<CsvRunner.Event>)
    decreases |events|
  {
    events != [] && ((s.pc.AtFinalize? && events[0] == CsvRunner.Finalize(true))
                     || FinalWrite(total, CsvRunner.Step(total, s, events[0]), events[1..]))
  }

  lemma {:induction false} EndedStays(total: nat, s: CsvRunner.State, events: seq<CsvRunner.Event>)
    requires s.pc == CsvRunner.Ended && !CsvRunner.Cancellable(s.job)
    ensures CsvRunner.Run(total, s, events).job.status == s.job.status
    decreases |events|
  {
    if events != [] {
      EndedStays(total, CsvRunner.Step(total, s, events[0]), events[1..]);
    }
  }

  lemma {:induction false} LeavesRunningExactly(total: nat, s: CsvRunner.State, events: seq<CsvRunner.Event>)
    requires s.job.status in {CsvRunner.Pending, CsvRunner.Running, CsvRunner.Cancelled}
    ensures var status := CsvRunner.Run(total, s, events).job.status;
            status != CsvRunner.Pending && status != CsvRunner.Running
            <==> FinalWrite(total, s, events) || status == CsvRunner.Cancelled
    decreases |events|
  {
    if events != [] {
      var next := CsvRunner.Step(total, s, events[0]);
      if s.pc.AtFinalize? && events[0] == CsvRunner.Finalize(true) {
        EndedStays(total, next, events[1..]);
      } else {
        LeavesRunningExactly(total, next, events[1..]);
      }
    }
  }

  // After any run of the executor the job it was about is deleted once it is old
  // exactly if the final status was written or the job is cancelled; one that is still
  // waiting or running, or was left so by a crash, stays whatever its age.
  lemma {:induction false} RunIsDeletedExactly(total: nat, events: seq<CsvRunner.Event>, orgId: string, createdAt: int,
      passes: seq<Pass>)
    requires AllValid(passes)
    ensures var s := CsvRunner.Run(total, CsvRunner.START, events);
            var j := CsvJob(orgId, createdAt, s.job.status);
            j !in JobsAfterAll([j], passes)
            <==> && (FinalWrite(total, CsvRunner.START, events) || s.job.status == CsvRunner.Cancelled)
                 && !AllSpare(passes, Jobs, orgId, createdAt)
  {
    var j := CsvJob(orgId, createdAt, CsvRunner.Run(total, CsvRunner.START, events).job.status);
    LeavesRunningExactly(total, CsvRunner.START, events);
    JobIsDeletedExactly([j], passes, j);
    ListedExactly(j.status);
  }
}
