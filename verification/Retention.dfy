/**
 * Per-organisation retention (radar-api/src/settings.rs and the tick loop of
 * radar-api/src/main.rs). Times are seconds of one clock.
 */
module Retention {
  import opened Decimals
  import opened Options
  import opened PlaceholderRewriter
  import opened Sequences
  import CsvRunner

  const DAY: int := 86400
  const DEFAULT_DAYS: nat := 90

  // ---------------------------------------------------------------------
  // Scopes
  // ---------------------------------------------------------------------

  datatype Scope = Org(org: string) | UnconfiguredOrgs(orgs: seq<string>) {
    // The condition on org_id, with `?` placeholders.
    function OrgPredicate(): string {
      match this
      case Org(_) => "org_id = ?"
      case UnconfiguredOrgs(orgs) =>
        if orgs == [] then "1 = 1" else "org_id NOT IN (" + Marks(|orgs|) + ")"
    }

    function BindValues(): seq<string> {
      match this
      case Org(org) => [org]
      case UnconfiguredOrgs(orgs) => orgs
    }

    // What that condition says about a row with these values bound.
    predicate Covers(org: string) {
      match this
      case Org(o) => org == o
      case UnconfiguredOrgs(orgs) => org !in orgs
    }
  }

  // n question marks, separated by commas.
  function Marks(n: nat): string {
    if n == 0 then "" else if n == 1 then "?" else "?, " + Marks(n - 1)
  }

  // The markers k, k + 1, ... in their place.
  function NumberedMarks(k: nat, n: nat): string
    decreases n
  {
    if n == 0 then "" else if n == 1 then Marker(k) else Marker(k) + ", " + NumberedMarks(k + 1, n - 1)
  }

  // The fixed parts of the statements are concatenations of short literals: the
  // verifier looks at every character of a literal, and long ones exceed its resources.

  // The four statuses of a job that has finished, as SQL literals.
  function FinishedList(): string {
    "'completed'" + (", " + ("'completed_with_failures'" + (", " + ("'failed'" + (", " + "'cancelled'")))))
  }

  const USAGE_HEAD := "DELETE FROM usage_event " + "WHERE recorded_at < "
  const USAGE_MIDDLE := " AND service_id IN         " + " (SELECT id FROM service WHERE "
  const CSV_HEAD := "DELETE FROM csv_run_job " + "WHERE status IN          ("
  const CSV_AGE := ")          AND created_at < "
  const CSV_MIDDLE := " AND "

  function UsageSql(scope: Scope): string {
    USAGE_HEAD + ("?" + (USAGE_MIDDLE + (scope.OrgPredicate() + ")")))
  }

  function CsvSql(scope: Scope): string {
    (CSV_HEAD + (FinishedList() + CSV_AGE)) + ("?" + (CSV_MIDDLE + (scope.OrgPredicate() + "")))
  }

  // ---------------------------------------------------------------------
  // As many markers as values, the cutoff first and the organisations in order
  // ---------------------------------------------------------------------

  // Text that leaves both the numbering and the open literal as they were.
  ghost predicate Quiet(s: string) {
    Placeholders(s, false) == 0 && !InStringAfter(s, false)
  }

  ghost predicate Plain(s: string) {
    forall i :: 0 <= i < |s| ==> s[i] != '?' && s[i] != '\''
  }

  lemma {:induction false} PlainIsQuiet(s: string)
    requires Plain(s)
    ensures Quiet(s)
  {
    if s != [] {
      PlainIsQuiet(s[1..]);
    }
  }

  lemma QuietConcat(a: string, b: string)
    requires Quiet(a) && Quiet(b)
    ensures Quiet(a + b)
  {
    RewriteConcat(a, b, 0, false);
  }

  lemma {:induction false} UnquotedInString(s: string)
    requires Plain(s)
    ensures Placeholders(s, true) == 0 && InStringAfter(s, true)
  {
    if s != [] {
      UnquotedInString(s[1..]);
    }
  }

  lemma LiteralIsQuiet(name: string, literal: string)
    requires Plain(name) && literal == "'" + name + "'"
    ensures Quiet(literal)
  {
    UnquotedInString(name);
    QuotedText(name);
  }

  lemma FinishedListIsQuiet()
    ensures Quiet(FinishedList())
  {
    CompletedIsQuiet();
    PartlyFailedIsQuiet();
    FailedIsQuiet();
    CancelledIsQuiet();
    ListedIsQuiet("'failed'", "'cancelled'");
    ListedIsQuiet("'completed_with_failures'", "'failed'" + (", " + "'cancelled'"));
    ListedIsQuiet("'completed'", "'completed_with_failures'" + (", " + ("'failed'" + (", " + "'cancelled'"))));
  }

  lemma CompletedIsQuiet()
    ensures Quiet("'completed'")
  {
    LiteralIsQuiet("completed", "'completed'");
  }

  lemma PartlyFailedIsQuiet()
    ensures Quiet("'completed_with_failures'")
  {
    LiteralIsQuiet("completed_with_failures", "'completed_with_failures'");
  }

  lemma FailedIsQuiet()
    ensures Quiet("'failed'")
  {
    LiteralIsQuiet("failed", "'failed'");
  }

  lemma CancelledIsQuiet()
    ensures Quiet("'cancelled'")
  {
    LiteralIsQuiet("cancelled", "'cancelled'");
  }

  lemma ListedIsQuiet(first: string, rest: string)
    requires Quiet(first) && Quiet(rest)
    ensures Quiet(first + (", " + rest))
  {
    PlainIsQuiet(", ");
    QuietConcat(", ", rest);
    QuietConcat(first, ", " + rest);
  }

  // Quiet text is copied.
  lemma {:induction false} QuietRewrite(s: string, rest: string, n: nat)
    requires Quiet(s)
    ensures RewriteFrom(s + rest, n, false) == s + RewriteFrom(rest, n, false)
    ensures Placeholders(s + rest, false) == Placeholders(rest, false)
  {
    RewriteConcat(s, rest, n, false);
    NothingToRewrite(s, n, false);
  }

  lemma {:induction false} MarkRewrite(rest: string, n: nat)
    ensures RewriteFrom("?" + rest, n, false) == Marker(n + 1) + RewriteFrom(rest, n + 1, false)
    ensures Placeholders("?" + rest, false) == 1 + Placeholders(rest, false)
  {
  }

  lemma {:induction false} MarkAndCommaRewrite(rest: string, n: nat)
    ensures RewriteFrom("?, " + rest, n, false) == Marker(n + 1) + (", " + RewriteFrom(rest, n + 1, false))
    ensures Placeholders("?, " + rest, false) == 1 + Placeholders(rest, false)
  {
    assert "?, " + rest == "?" + (", " + rest);
    MarkRewrite(", " + rest, n);
    PlainIsQuiet(", ");
    QuietRewrite(", ", rest, n + 1);
  }

  lemma {:induction false} MarksAreNumbered(n: nat, k: nat, rest: string)
    ensures RewriteFrom(Marks(n) + rest, k, false) == NumberedMarks(k + 1, n) + RewriteFrom(rest, k + n, false)
    ensures Placeholders(Marks(n) + rest, false) == n + Placeholders(rest, false)
    decreases n
  {
    if n == 0 {
      assert "" + rest == rest;
    } else if n == 1 {
      MarkRewrite(rest, k);
    } else {
      var tail := Marks(n - 1) + rest;
      assert Marks(n) + rest == "?, " + tail;
      MarkAndCommaRewrite(tail, k);
      MarksAreNumbered(n - 1, k + 1, rest);
      Regroup4(Marker(k + 1), ", ", NumberedMarks(k + 2, n - 1), RewriteFrom(rest, k + n, false));
    }
  }

  lemma Regroup4(a: string, b: string, c: string, d: string)
    ensures a + (b + (c + d)) == a + b + c + d
  {
  }

  // A quiet frame around something that is rewritten.
  lemma FramedRewrite(head: string, body: string, numbered: string, tail: string, rest: string,
      n: nat, count: nat)
    requires Quiet(head) && Quiet(tail)
    requires RewriteFrom(body + (tail + rest), n, false) == numbered + RewriteFrom(tail + rest, n + count, false)
    requires Placeholders(body + (tail + rest), false) == count + Placeholders(tail + rest, false)
    ensures RewriteFrom(head + body + tail + rest, n, false)
         == head + numbered + tail + RewriteFrom(rest, n + count, false)
    ensures Placeholders(head + body + tail + rest, false) == count + Placeholders(rest, false)
  {
    assert head + body + tail + rest == head + (body + (tail + rest));
    QuietRewrite(head, body + (tail + rest), n);
    QuietRewrite(tail, rest, n + count);
  }

  // The condition with its values numbered from `k` on.
  function NumberedPredicate(scope: Scope, k: nat): string {
    match scope
    case Org(_) => "org_id = " + Marker(k)
    case UnconfiguredOrgs(orgs) =>
      if orgs == [] then "1 = 1" else "org_id NOT IN (" + NumberedMarks(k, |orgs|) + ")"
  }

  lemma {:induction false} PredicateIsNumbered(scope: Scope, n: nat, rest: string)
    ensures RewriteFrom(scope.OrgPredicate() + rest, n, false)
         == NumberedPredicate(scope, n + 1) + RewriteFrom(rest, n + |scope.BindValues()|, false)
    ensures Placeholders(scope.OrgPredicate() + rest, false) == |scope.BindValues()| + Placeholders(rest, false)
  {
    match scope {
      case Org(_) => OneOrgIsNumbered(n, rest);
      case UnconfiguredOrgs(orgs) =>
        if orgs == [] {
          PlainIsQuiet("1 = 1");
          QuietRewrite("1 = 1", rest, n);
        } else {
          NotInIsNumbered(|orgs|, n, rest);
        }
    }
  }

  lemma {:induction false} OneOrgIsNumbered(n: nat, rest: string)
    ensures RewriteFrom("org_id = ?" + rest, n, false) == "org_id = " + Marker(n + 1) + RewriteFrom(rest, n + 1, false)
    ensures Placeholders("org_id = ?" + rest, false) == 1 + Placeholders(rest, false)
  {
    PlainIsQuiet("org_id = ");
    assert "org_id = ?" + rest == "org_id = " + ("?" + rest);
    QuietRewrite("org_id = ", "?" + rest, n);
    MarkRewrite(rest, n);
  }

  lemma {:induction false} NotInIsNumbered(count: nat, n: nat, rest: string)
    ensures RewriteFrom("org_id NOT IN (" + Marks(count) + ")" + rest, n, false)
         == "org_id NOT IN (" + NumberedMarks(n + 1, count) + ")" + RewriteFrom(rest, n + count, false)
    ensures Placeholders("org_id NOT IN (" + Marks(count) + ")" + rest, false) == count + Placeholders(rest, false)
  {
    PlainIsQuiet("org_id NOT IN (");
    PlainIsQuiet(")");
    MarksAreNumbered(count, n, ")" + rest);
    FramedRewrite("org_id NOT IN (", Marks(count), NumberedMarks(n + 1, count), ")", rest, n, count);
  }

  // A statement with the cutoff in front and a condition behind that takes
  // `count` values.
  lemma {:induction false} StatementIsNumbered(head: string, middle: string, body: string, numbered: string, count: nat)
    requires Quiet(head) && Quiet(middle)
    requires RewriteFrom(body, 1, false) == numbered && Placeholders(body, false) == count
    ensures Rewritten(head + ("?" + (middle + body))) == head + (Marker(1) + (middle + numbered))
    ensures Placeholders(head + ("?" + (middle + body)), false) == 1 + count
  {
    QuietRewrite(middle, body, 1);
    MarkRewrite(middle + body, 0);
    QuietRewrite(head, "?" + (middle + body), 0);
  }

  lemma {:induction false} ConditionIsNumbered(scope: Scope, tail: string)
    requires Quiet(tail)
    ensures RewriteFrom(scope.OrgPredicate() + tail, 1, false) == NumberedPredicate(scope, 2) + tail
    ensures Placeholders(scope.OrgPredicate() + tail, false) == |scope.BindValues()|
  {
    PredicateIsNumbered(scope, 1, tail);
    NothingToRewrite(tail, 1 + |scope.BindValues()|, false);
  }

  lemma UsageHeadIsPlain()
    ensures Plain(USAGE_HEAD)
  {
  }

  lemma UsageMiddleIsPlain()
    ensures Plain(USAGE_MIDDLE)
  {
  }

  lemma UsageTextIsQuiet()
    ensures Quiet(USAGE_HEAD) && Quiet(USAGE_MIDDLE)
  {
    UsageHeadIsPlain();
    UsageMiddleIsPlain();
    PlainIsQuiet(USAGE_HEAD);
    PlainIsQuiet(USAGE_MIDDLE);
  }

  // For every scope the rewritten statements take the cutoff as $1 and the bound
  // organisations as $2, $3, ... in order, and nothing else.
  lemma UsageSqlTakesItsValues(scope: Scope)
    ensures Rewritten(UsageSql(scope))
         == USAGE_HEAD + (Marker(1) + (USAGE_MIDDLE + (NumberedPredicate(scope, 2) + ")")))
    ensures Placeholders(UsageSql(scope), false) == 1 + |scope.BindValues()|
  {
    UsageTextIsQuiet();
    PlainIsQuiet(")");
    ConditionIsNumbered(scope, ")");
    StatementIsNumbered(USAGE_HEAD, USAGE_MIDDLE, scope.OrgPredicate() + ")", NumberedPredicate(scope, 2) + ")",
                        |scope.BindValues()|);
  }

  lemma CsvStartIsPlain()
    ensures Plain(CSV_HEAD)
  {
  }

  lemma CsvAgeIsPlain()
    ensures Plain(CSV_AGE)
  {
  }

  lemma CsvHeadIsQuiet()
    ensures Quiet(CSV_HEAD + (FinishedList() + CSV_AGE))
  {
    CsvStartIsPlain();
    CsvAgeIsPlain();
    PlainIsQuiet(CSV_HEAD);
    PlainIsQuiet(CSV_AGE);
    FinishedListIsQuiet();
    QuietConcat(FinishedList(), CSV_AGE);
    QuietConcat(CSV_HEAD, FinishedList() + CSV_AGE);
  }

  lemma CsvSqlTakesItsValues(scope: Scope)
    ensures Rewritten(CsvSql(scope))
         == (CSV_HEAD + (FinishedList() + CSV_AGE)) + (Marker(1) + (CSV_MIDDLE + (NumberedPredicate(scope, 2) + "")))
    ensures Placeholders(CsvSql(scope), false) == 1 + |scope.BindValues()|
  {
    CsvHeadIsQuiet();
    PlainIsQuiet(CSV_MIDDLE);
    PlainIsQuiet("");
    ConditionIsNumbered(scope, "");
    StatementIsNumbered(CSV_HEAD + (FinishedList() + CSV_AGE), CSV_MIDDLE, scope.OrgPredicate() + "",
                        NumberedPredicate(scope, 2) + "", |scope.BindValues()|);
  }

  // ---------------------------------------------------------------------
  // Rows and windows
  // ---------------------------------------------------------------------

  datatype UsageEvent = UsageEvent(serviceId: string, recordedAt: int)

  datatype CsvJob = CsvJob(orgId: string, createdAt: int, status: CsvRunner.JobStatus)

  predicate Finished(j: CsvJob) {
    j.status.Completed? || j.status.CompletedWithFailures? || j.status.Failed? || j.status.Cancelled?
  }

  // A purge deletes the rows of its scope that are older than its cutoff.
  predicate EventStays(services: map<string, string>, scope: Scope, cutoff: int, e: UsageEvent) {
    !(e.recordedAt < cutoff && e.serviceId in services && scope.Covers(services[e.serviceId]))
  }

  predicate JobStays(scope: Scope, cutoff: int, j: CsvJob) {
    !(Finished(j) && j.createdAt < cutoff && scope.Covers(j.orgId))
  }

  // The window of an organisation: its own setting if that reads as a number,
  // else the default.
  function WindowDays(settings: map<string, string>, org: string): nat {
    if org in settings then ParseU32(settings[org]).GetOr(DEFAULT_DAYS) else DEFAULT_DAYS
  }

  predicate Configured(settings: map<string, string>, org: string) {
    org in settings && ParseU32(settings[org]).Some?
  }

  // The list the job works through: every configured organisation once, in
  // whatever order the database returns them.
  ghost predicate Lists(configured: seq<(string, nat)>, settings: map<string, string>) {
    && (forall org :: Configured(settings, org) <==> exists i :: 0 <= i < |configured| && configured[i].0 == org)
    && (forall i :: 0 <= i < |configured| ==> configured[i].1 == WindowDays(settings, configured[i].0))
    && (forall i, j :: 0 <= i < j < |configured| ==> configured[i].0 != configured[j].0)
  }

  function Orgs(configured: seq<(string, nat)>): seq<string> {
    seq(|configured|, i requires 0 <= i < |configured| => configured[i].0)
  }

  // The scopes of one tick, in order, and the window of each.
  function ScopeAt(configured: seq<(string, nat)>, i: nat): Scope
    requires i <= |configured|
  {
    if i < |configured| then Org(configured[i].0) else UnconfiguredOrgs(Orgs(configured))
  }

  function DaysAt(configured: seq<(string, nat)>, i: nat): nat
    requires i <= |configured|
  {
    if i < |configured| then configured[i].1 else DEFAULT_DAYS
  }

  // Every organisation falls under exactly one scope of a tick, and that scope
  // carries its window.
  lemma ExactlyOneScope(configured: seq<(string, nat)>, settings: map<string, string>, org: string)
    requires Lists(configured, settings)
    ensures exists i: nat :: i <= |configured| && ScopeAt(configured, i).Covers(org)
              && DaysAt(configured, i) == WindowDays(settings, org)
              && forall j: nat :: j <= |configured| && ScopeAt(configured, j).Covers(org) ==> j == i
  {
    if Configured(settings, org) {
      var i: nat :| i < |configured| && configured[i].0 == org;
      assert org == Orgs(configured)[i];
      assert ScopeAt(configured, i).Covers(org);
    } else {
      assert org !in Orgs(configured);
      assert ScopeAt(configured, |configured|).Covers(org);
    }
  }

  // What a number saved through the settings endpoint means to the job.
  lemma {:induction false} SavedWindowIsUsed(settings: map<string, string>, org: string, days: nat)
    requires 1 <= days <= 3650
    ensures WindowDays(settings[org := Decimal(days)], org) == days && Configured(settings[org := Decimal(days)], org)
  {
    ParseDecimal(days);
  }

  // ---------------------------------------------------------------------
  // One tick
  // ---------------------------------------------------------------------

  predicate EventKept(services: map<string, string>, settings: map<string, string>, now: int, e: UsageEvent) {
    !(e.serviceId in services && e.recordedAt < now - WindowDays(settings, services[e.serviceId]) * DAY)
  }

  predicate JobKept(settings: map<string, string>, now: int, j: CsvJob) {
    !(Finished(j) && j.createdAt < now - WindowDays(settings, j.orgId) * DAY)
  }

  // Rows that survive a tick whose purges all read the clock at `now`.
  function KeptEvents(events: seq<UsageEvent>, services: map<string, string>, settings: map<string, string>,
      now: int): seq<UsageEvent> {
    Filter(events, e => EventKept(services, settings, now, e))
  }

  function KeptJobs(jobs: seq<CsvJob>, settings: map<string, string>, now: int): seq<CsvJob> {
    Filter(jobs, j => JobKept(settings, now, j))
  }

  // When the `t`-th purge of a tick reads the clock, and whether it succeeds.
  datatype Env = Env(clock: nat -> int, ok: nat -> bool)

  // Each scope purges usage events first, then CSV runs. A row survives the first
  // `n` scopes if none of their purges deletes it.
  ghost predicate SurvivesEvents(services: map<string, string>, configured: seq<(string, nat)>, env: Env, n: nat,
      e: UsageEvent)
    requires n <= |configured| + 1
  {
    forall i: nat :: i < n && env.ok(2 * i) ==>
      EventStays(services, ScopeAt(configured, i), env.clock(2 * i) - DaysAt(configured, i) * DAY, e)
  }

  ghost predicate SurvivesJobs(configured: seq<(string, nat)>, env: Env, n: nat, j: CsvJob)
    requires n <= |configured| + 1
  {
    forall i: nat :: i < n && env.ok(2 * i + 1) ==>
      JobStays(ScopeAt(configured, i), env.clock(2 * i + 1) - DaysAt(configured, i) * DAY, j)
  }

  function PurgedEvents(events: seq<UsageEvent>, services: map<string, string>, scope: Scope,
      cutoff: int): seq<UsageEvent> {
    Filter(events, e => EventStays(services, scope, cutoff, e))
  }

  function PurgedJobs(jobs: seq<CsvJob>, scope: Scope, cutoff: int): seq<CsvJob> {
    Filter(jobs, j => JobStays(scope, cutoff, j))
  }

  // What is left after the first `n` scopes.
  ghost function EventsAfter(events: seq<UsageEvent>, services: map<string, string>, configured: seq<(string, nat)>,
      env: Env, n: nat): seq<UsageEvent>
    requires n <= |configured| + 1
  {
    Filter(events, e => SurvivesEvents(services, configured, env, n, e))
  }

  ghost function JobsAfter(jobs: seq<CsvJob>, configured: seq<(string, nat)>, env: Env, n: nat): seq<CsvJob>
    requires n <= |configured| + 1
  {
    Filter(jobs, j => SurvivesJobs(configured, env, n, j))
  }

  class Database {
    var services: map<string, string>      // service id to organisation
    var settings: map<string, string>      // organisation to its retention.days text
    var usageEvents: seq<UsageEvent>
    var csvJobs: seq<CsvJob>

    constructor (services: map<string, string>, settings: map<string, string>,
        usageEvents: seq<UsageEvent>, csvJobs: seq<CsvJob>)
      ensures this.services == services && this.settings == settings
      ensures this.usageEvents == usageEvents && this.csvJobs == csvJobs
    {
      this.services, this.settings, this.usageEvents, this.csvJobs := services, settings, usageEvents, csvJobs;
    }

    method ConfiguredRetentionDays() returns (configured: seq<(string, nat)>)
      ensures Lists(configured, settings)
    {
      configured := [];
      var orgs := settings.Keys;
      while orgs != {}
        invariant orgs <= settings.Keys
        invariant forall org :: org in settings && org !in orgs && ParseU32(settings[org]).Some?
                    ==> exists i :: 0 <= i < |configured| && configured[i].0 == org
        invariant forall i :: 0 <= i < |configured| ==>
                    && configured[i].0 in settings && configured[i].0 !in orgs
                    && ParseU32(settings[configured[i].0]) == Some(configured[i].1)
        invariant forall i, j :: 0 <= i < j < |configured| ==> configured[i].0 != configured[j].0
        decreases orgs
      {
        var org :| org in orgs;
        var days := ParseU32(settings[org]);
        ghost var before := configured;
        if days.Some? {
          configured := configured + [(org, days.value)];
          assert configured[|before|].0 == org;
        }
        forall o | o in settings && o !in orgs - {org} && ParseU32(settings[o]).Some?
          ensures exists i :: 0 <= i < |configured| && configured[i].0 == o
        {
          if o != org {
            var i :| 0 <= i < |before| && before[i].0 == o;
            assert configured[i].0 == o;
          }
        }
        orgs := orgs - {org};
      }
    }

    method PurgeOldUsageEvents(lookbackDays: nat, scope: Scope, now: int) returns (deleted: nat)
      modifies this`usageEvents
      ensures usageEvents == PurgedEvents(old(usageEvents), services, scope, now - lookbackDays * DAY)
      ensures deleted == |old(usageEvents)| - |usageEvents|
    {
      var cutoff := now - lookbackDays * DAY;
      var kept: seq<UsageEvent> := [];
      deleted := 0;
      for i := 0 to |usageEvents|
        invariant kept == PurgedEvents(usageEvents[..i], services, scope, cutoff)
        invariant deleted == i - |kept|
      {
        assert usageEvents[..i + 1][..i] == usageEvents[..i];
        if EventStays(services, scope, cutoff, usageEvents[i]) {
          kept := kept + [usageEvents[i]];
        } else {
          deleted := deleted + 1;
        }
      }
      assert usageEvents[..|usageEvents|] == usageEvents;
      usageEvents := kept;
    }

    method PurgeOldCsvRuns(lookbackDays: nat, scope: Scope, now: int) returns (deleted: nat)
      modifies this`csvJobs
      ensures csvJobs == PurgedJobs(old(csvJobs), scope, now - lookbackDays * DAY)
      ensures deleted == |old(csvJobs)| - |csvJobs|
    {
      var cutoff := now - lookbackDays * DAY;
      var kept: seq<CsvJob> := [];
      deleted := 0;
      for i := 0 to |csvJobs|
        invariant kept == PurgedJobs(csvJobs[..i], scope, cutoff)
        invariant deleted == i - |kept|
      {
        assert csvJobs[..i + 1][..i] == csvJobs[..i];
        if JobStays(scope, cutoff, csvJobs[i]) {
          kept := kept + [csvJobs[i]];
        } else {
          deleted := deleted + 1;
        }
      }
      assert csvJobs[..|csvJobs|] == csvJobs;
      csvJobs := kept;
    }

    // The purges of the `i`-th scope of a tick, on what the scopes before have left; a
    // failure is logged and the tick goes on.
    method PurgeNextEvents(lookbackDays: nat, scope: Scope, env: Env, i: nat, ghost configured: seq<(string, nat)>,
                           ghost events: seq<UsageEvent>)
      requires i <= |configured| && scope == ScopeAt(configured, i) && lookbackDays == DaysAt(configured, i)
      requires usageEvents == EventsAfter(events, services, configured, env, i)
      modifies this`usageEvents
      ensures usageEvents == EventsAfter(events, services, configured, env, i + 1)
    {
      MoreEvents(events, services, configured, env, i);
      if env.ok(2 * i) {
        var _ := PurgeOldUsageEvents(lookbackDays, scope, env.clock(2 * i));
      }
    }

    method PurgeNextJobs(lookbackDays: nat, scope: Scope, env: Env, i: nat, ghost configured: seq<(string, nat)>,
                         ghost jobs: seq<CsvJob>)
      requires i <= |configured| && scope == ScopeAt(configured, i) && lookbackDays == DaysAt(configured, i)
      requires csvJobs == JobsAfter(jobs, configured, env, i)
      modifies this`csvJobs
      ensures csvJobs == JobsAfter(jobs, configured, env, i + 1)
    {
      MoreJobs(jobs, configured, env, i);
      if env.ok(2 * i + 1) {
        var _ := PurgeOldCsvRuns(lookbackDays, scope, env.clock(2 * i + 1));
      }
    }

    method PurgeAllScopes(configured: seq<(string, nat)>, env: Env)
      modifies this`usageEvents, this`csvJobs
      ensures usageEvents == EventsAfter(old(usageEvents), services, configured, env, |configured| + 1)
      ensures csvJobs == JobsAfter(old(csvJobs), configured, env, |configured| + 1)
    {
      ghost var events, jobs := usageEvents, csvJobs;
      NoScopesYet(events, jobs, services, configured, env);
      for i := 0 to |configured|
        invariant usageEvents == EventsAfter(events, services, configured, env, i)
        invariant csvJobs == JobsAfter(jobs, configured, env, i)
      {
        PurgeNextEvents(configured[i].1, Org(configured[i].0), env, i, configured, events);
        PurgeNextJobs(configured[i].1, Org(configured[i].0), env, i, configured, jobs);
      }
      PurgeNextEvents(DEFAULT_DAYS, UnconfiguredOrgs(Orgs(configured)), env, |configured|, configured, events);
      PurgeNextJobs(DEFAULT_DAYS, UnconfiguredOrgs(Orgs(configured)), env, |configured|, configured, jobs);
    }

    // One pass of the job. When the settings cannot be read it goes on as if no
    // organisation had any.
    method RetentionTick(settingsReadable: bool, env: Env) returns (configured: seq<(string, nat)>)
      modifies this`usageEvents, this`csvJobs
      ensures Lists(configured, if settingsReadable then settings else map[])
      ensures usageEvents == EventsAfter(old(usageEvents), services, configured, env, |configured| + 1)
      ensures csvJobs == JobsAfter(old(csvJobs), configured, env, |configured| + 1)
      ensures (forall t: nat :: env.ok(t) && env.clock(t) == env.clock(0)) ==>
                var effective := if settingsReadable then settings else map[];
                && usageEvents == KeptEvents(old(usageEvents), services, effective, env.clock(0))
                && csvJobs == KeptJobs(old(csvJobs), effective, env.clock(0))
    {
      ghost var events, jobs := usageEvents, csvJobs;
      configured := [];
      if settingsReadable {
        configured := ConfiguredRetentionDays();
      }
      ghost var effective := if settingsReadable then settings else map[];
      PurgeAllScopes(configured, env);
      if forall t: nat :: env.ok(t) && env.clock(t) == env.clock(0) {
        AllScopesEvents(events, services, configured, effective, env);
        AllScopesJobs(jobs, configured, effective, env);
      }
    }
  }

  lemma NoScopesYet(events: seq<UsageEvent>, jobs: seq<CsvJob>, services: map<string, string>,
      configured: seq<(string, nat)>, env: Env)
    ensures EventsAfter(events, services, configured, env, 0) == events
    ensures JobsAfter(jobs, configured, env, 0) == jobs
  {
    FilterAll(events, e => SurvivesEvents(services, configured, env, 0, e));
    FilterAll(jobs, j => SurvivesJobs(configured, env, 0, j));
  }

  lemma JobSurvivesOneMore(configured: seq<(string, nat)>, env: Env, n: nat, j: CsvJob)
    requires n <= |configured|
    ensures SurvivesJobs(configured, env, n + 1, j)
       <==> && SurvivesJobs(configured, env, n, j)
            && (env.ok(2 * n + 1) ==>
                  JobStays(ScopeAt(configured, n), env.clock(2 * n + 1) - DaysAt(configured, n) * DAY, j))
  {
  }

  lemma MoreEvents(events: seq<UsageEvent>, services: map<string, string>,
      configured: seq<(string, nat)>, env: Env, n: nat)
    requires n <= |configured|
    ensures EventsAfter(events, services, configured, env, n + 1)
         == var before := EventsAfter(events, services, configured, env, n);
            if env.ok(2 * n)
            then PurgedEvents(before, services, ScopeAt(configured, n), env.clock(2 * n) - DaysAt(configured, n) * DAY)
            else before
  {
    var scope, cutoff := ScopeAt(configured, n), env.clock(2 * n) - DaysAt(configured, n) * DAY;
    forall e | e in events
      ensures SurvivesEvents(services, configured, env, n + 1, e)
         <==> SurvivesEvents(services, configured, env, n, e)
              && (env.ok(2 * n) ==> EventStays(services, scope, cutoff, e))
    {
    }
    if env.ok(2 * n) {
      FilterFilter(events, e => SurvivesEvents(services, configured, env, n, e),
                   e => EventStays(services, scope, cutoff, e),
                   e => SurvivesEvents(services, configured, env, n + 1, e));
    } else {
      FilterSame(events, e => SurvivesEvents(services, configured, env, n + 1, e),
                 e => SurvivesEvents(services, configured, env, n, e));
    }
  }

  lemma MoreJobs(jobs: seq<CsvJob>, configured: seq<(string, nat)>, env: Env, n: nat)
    requires n <= |configured|
    ensures JobsAfter(jobs, configured, env, n + 1)
         == var before := JobsAfter(jobs, configured, env, n);
            if env.ok(2 * n + 1)
            then PurgedJobs(before, ScopeAt(configured, n), env.clock(2 * n + 1) - DaysAt(configured, n) * DAY)
            else before
  {
    var scope, cutoff := ScopeAt(configured, n), env.clock(2 * n + 1) - DaysAt(configured, n) * DAY;
    forall j | j in jobs
      ensures SurvivesJobs(configured, env, n + 1, j)
         <==> SurvivesJobs(configured, env, n, j) && (env.ok(2 * n + 1) ==> JobStays(scope, cutoff, j))
    {
      JobSurvivesOneMore(configured, env, n, j);
    }
    if env.ok(2 * n + 1) {
      FilterFilter(jobs, j => SurvivesJobs(configured, env, n, j),
                   j => JobStays(scope, cutoff, j),
                   j => SurvivesJobs(configured, env, n + 1, j));
    } else {
      FilterSame(jobs, j => SurvivesJobs(configured, env, n + 1, j), j => SurvivesJobs(configured, env, n, j));
    }
  }

  // The fate of one row, whenever the purges read the clock and whichever fail: only
  // the purge of its own organisation's scope decides, with that organisation's window.
  lemma EventFate(services: map<string, string>, configured: seq<(string, nat)>,
      settings: map<string, string>, env: Env, e: UsageEvent)
    requires Lists(configured, settings) && e.serviceId in services
    ensures exists i: nat :: i <= |configured| && ScopeAt(configured, i).Covers(services[e.serviceId])
              && (SurvivesEvents(services, configured, env, |configured| + 1, e)
                  <==> !env.ok(2 * i)
                       || e.recordedAt >= env.clock(2 * i) - WindowDays(settings, services[e.serviceId]) * DAY)
  {
    ExactlyOneScope(configured, settings, services[e.serviceId]);
  }

  lemma JobFate(configured: seq<(string, nat)>, settings: map<string, string>, env: Env, j: CsvJob)
    requires Lists(configured, settings)
    ensures exists i: nat :: i <= |configured| && ScopeAt(configured, i).Covers(j.orgId)
              && (SurvivesJobs(configured, env, |configured| + 1, j)
                  <==> !env.ok(2 * i + 1) || !Finished(j)
                       || j.createdAt >= env.clock(2 * i + 1) - WindowDays(settings, j.orgId) * DAY)
  {
    ExactlyOneScope(configured, settings, j.orgId);
  }

  lemma AllScopesEvents(events: seq<UsageEvent>, services: map<string, string>,
      configured: seq<(string, nat)>, settings: map<string, string>, env: Env)
    requires Lists(configured, settings) && forall t: nat :: env.ok(t) && env.clock(t) == env.clock(0)
    ensures EventsAfter(events, services, configured, env, |configured| + 1)
         == KeptEvents(events, services, settings, env.clock(0))
  {
    forall e | e in events
      ensures SurvivesEvents(services, configured, env, |configured| + 1, e)
         <==> EventKept(services, settings, env.clock(0), e)
    {
      if e.serviceId in services {
        EventFate(services, configured, settings, env, e);
      }
    }
    FilterSame(events, e => SurvivesEvents(services, configured, env, |configured| + 1, e),
                       e => EventKept(services, settings, env.clock(0), e));
  }

  lemma AllScopesJobs(jobs: seq<CsvJob>, configured: seq<(string, nat)>,
      settings: map<string, string>, env: Env)
    requires Lists(configured, settings) && forall t: nat :: env.ok(t) && env.clock(t) == env.clock(0)
    ensures JobsAfter(jobs, configured, env, |configured| + 1) == KeptJobs(jobs, settings, env.clock(0))
  {
    forall j | j in jobs
      ensures SurvivesJobs(configured, env, |configured| + 1, j) <==> JobKept(settings, env.clock(0), j)
    {
      JobFate(configured, settings, env, j);
    }
    FilterSame(jobs, j => SurvivesJobs(configured, env, |configured| + 1, j), j => JobKept(settings, env.clock(0), j));
  }

  // ---------------------------------------------------------------------
  // What a tick means to one organisation
  // ---------------------------------------------------------------------

  // No other organisation's setting decides about a row.
  lemma TenantsAreIsolated(events: seq<UsageEvent>, jobs: seq<CsvJob>, services: map<string, string>,
                           mine: map<string, string>, theirs: map<string, string>, now: int, e: UsageEvent, j: CsvJob)
    requires e in events && e.serviceId in services
    requires WindowDays(mine, services[e.serviceId]) == WindowDays(theirs, services[e.serviceId])
    requires j in jobs && WindowDays(mine, j.orgId) == WindowDays(theirs, j.orgId)
    ensures e in KeptEvents(events, services, mine, now) <==> e in KeptEvents(events, services, theirs, now)
    ensures j in KeptJobs(jobs, mine, now) <==> j in KeptJobs(jobs, theirs, now)
  {
    FilterMembers(events, x => EventKept(services, mine, now, x), e);
    FilterMembers(events, x => EventKept(services, theirs, now, x), e);
    FilterMembers(jobs, x => JobKept(mine, now, x), j);
    FilterMembers(jobs, x => JobKept(theirs, now, x), j);
  }

  // A tick that cannot read the settings is wrong about an event exactly between the
  // default window and the organisation's own: it deletes what a longer window keeps,
  // and keeps what a shorter one deletes.
  lemma UnreadableSettingsLoseExactly(events: seq<UsageEvent>, services: map<string, string>,
      settings: map<string, string>, now: int, e: UsageEvent)
    requires e in events && e.serviceId in services
    ensures e in KeptEvents(events, services, settings, now) && e !in KeptEvents(events, services, map[], now)
       <==> now - WindowDays(settings, services[e.serviceId]) * 86400 <= e.recordedAt < now - 90 * 86400
    ensures e !in KeptEvents(events, services, settings, now) && e in KeptEvents(events, services, map[], now)
       <==> now - 90 * 86400 <= e.recordedAt < now - WindowDays(settings, services[e.serviceId]) * 86400
  {
    FilterMembers(events, x => EventKept(services, settings, now, x), e);
    FilterMembers(events, x => EventKept(services, map[], now, x), e);
  }

  // The same for CSV runs, of which only finished ones are concerned.
  lemma UnreadableSettingsMistakeJobsExactly(jobs: seq<CsvJob>, settings: map<string, string>,
      now: int, j: CsvJob)
    requires j in jobs
    ensures j in KeptJobs(jobs, settings, now) && j !in KeptJobs(jobs, map[], now)
       <==> Finished(j) && now - WindowDays(settings, j.orgId) * 86400 <= j.createdAt < now - 90 * 86400
    ensures j !in KeptJobs(jobs, settings, now) && j in KeptJobs(jobs, map[], now)
       <==> Finished(j) && now - 90 * 86400 <= j.createdAt < now - WindowDays(settings, j.orgId) * 86400
  {
    FilterMembers(jobs, x => JobKept(settings, now, x), j);
    FilterMembers(jobs, x => JobKept(map[], now, x), j);
  }
}
