/**
 * Any number of passes of the retention job (radar-api/src/main.rs), with settings
 * that change, cannot be read, and purges that fail.
 */
module RetentionRuns {
  import opened Retention
  import opened Sequences

  // One pass: the settings at that time and whether they could be read, the list the
  // job worked through, and what happened to its purges.
  datatype Pass = Pass(settings: map<string, string>, readable: bool, configured: seq<(string, nat)>, env: Env) {
    function Effective(): map<string, string> {
      if readable then settings else map[]
    }

    ghost predicate Valid() {
      Lists(configured, Effective())
    }
  }

  datatype Kind = Events | Jobs

  // The purge of the `i`-th scope among those of a pass.
  function PurgeAt(kind: Kind, i: nat): nat {
    if kind.Events? then 2 * i else 2 * i + 1
  }

  // The purge of its own organisation's scope fails, or finds the row young enough.
  ghost predicate Spares(p: Pass, kind: Kind, org: string, at: int) {
    exists i: nat :: i <= |p.configured| && ScopeAt(p.configured, i).Covers(org)
      && (!p.env.ok(PurgeAt(kind, i))
          || at >= p.env.clock(PurgeAt(kind, i)) - WindowDays(p.Effective(), org) * DAY)
  }

  ghost predicate AllSpare(passes: seq<Pass>, kind: Kind, org: string, at: int) {
    forall k :: 0 <= k < |passes| ==> Spares(passes[k], kind, org, at)
  }

  ghost predicate AllValid(passes: seq<Pass>) {
    forall k :: 0 <= k < |passes| ==> passes[k].Valid()
  }

  ghost function EventsAfterPass(events: seq<UsageEvent>, services: map<string, string>, p: Pass): seq<UsageEvent> {
    EventsAfter(events, services, p.configured, p.env, |p.configured| + 1)
  }

  ghost function EventsAfterAll(events: seq<UsageEvent>, services: map<string, string>, passes: seq<Pass>)
      : seq<UsageEvent>
    decreases |passes|
  {
    if passes == [] then events
    else EventsAfterAll(EventsAfterPass(events, services, passes[0]), services, passes[1..])
  }

  ghost function JobsAfterPass(jobs: seq<CsvJob>, p: Pass): seq<CsvJob> {
    JobsAfter(jobs, p.configured, p.env, |p.configured| + 1)
  }

  ghost function JobsAfterAll(jobs: seq<CsvJob>, passes: seq<Pass>): seq<CsvJob>
    decreases |passes|
  {
    if passes == [] then jobs else JobsAfterAll(JobsAfterPass(jobs, passes[0]), passes[1..])
  }

  lemma EventAfterPass(events: seq<UsageEvent>, services: map<string, string>, p: Pass, e: UsageEvent)
    requires p.Valid() && e.serviceId in services
    ensures e in EventsAfterPass(events, services, p)
       <==> e in events && Spares(p, Events, services[e.serviceId], e.recordedAt)
  {
    FilterMembers(events, x => SurvivesEvents(services, p.configured, p.env, |p.configured| + 1, x), e);
    EventFate(services, p.configured, p.Effective(), p.env, e);
    ExactlyOneScope(p.configured, p.Effective(), services[e.serviceId]);
  }

  lemma JobAfterPass(jobs: seq<CsvJob>, p: Pass, j: CsvJob)
    requires p.Valid()
    ensures j in JobsAfterPass(jobs, p)
       <==> j in jobs && (Finished(j) ==> Spares(p, Jobs, j.orgId, j.createdAt))
  {
    FilterMembers(jobs, x => SurvivesJobs(p.configured, p.env, |p.configured| + 1, x), j);
    JobFate(p.configured, p.Effective(), p.env, j);
    ExactlyOneScope(p.configured, p.Effective(), j.orgId);
  }

  // Over any number of passes only the purges of an event's own organisation decide
  // about it, each with the window the organisation has in that pass.
  lemma {:induction false} EventFateOverPasses(events: seq<UsageEvent>, services: map<string, string>,
      passes: seq<Pass>, e: UsageEvent)
    requires AllValid(passes) && e.serviceId in services
    ensures e in EventsAfterAll(events, services, passes)
       <==> e in events && AllSpare(passes, Events, services[e.serviceId], e.recordedAt)
    decreases |passes|
  {
    if passes != [] {
      EventAfterPass(events, services, passes[0], e);
      EventFateOverPasses(EventsAfterPass(events, services, passes[0]), services, passes[1..], e);
      FirstAndRest(passes, Events, services[e.serviceId], e.recordedAt);
    }
  }

  lemma {:induction false} JobFateOverPasses(jobs: seq<CsvJob>, passes: seq<Pass>, j: CsvJob)
    requires AllValid(passes)
    ensures j in JobsAfterAll(jobs, passes)
       <==> j in jobs && (Finished(j) ==> AllSpare(passes, Jobs, j.orgId, j.createdAt))
    decreases |passes|
  {
    if passes != [] {
      JobAfterPass(jobs, passes[0], j);
      JobFateOverPasses(JobsAfterPass(jobs, passes[0]), passes[1..], j);
      FirstAndRest(passes, Jobs, j.orgId, j.createdAt);
    }
  }

  lemma FirstAndRest(passes: seq<Pass>, kind: Kind, org: string, at: int)
    requires passes != []
    ensures AllSpare(passes, kind, org, at)
       <==> Spares(passes[0], kind, org, at) && AllSpare(passes[1..], kind, org, at)
  {
    forall k | 0 < k < |passes| ensures passes[k] == passes[1..][k - 1] {
    }
  }

  // The two passes treat the organisation alike: the same window, and a purge of its
  // scope at the same time with the same success.
  ghost predicate Alike(p: Pass, q: Pass, kind: Kind, org: string) {
    && WindowDays(p.Effective(), org) == WindowDays(q.Effective(), org)
    && forall i: nat, j: nat :: i <= |p.configured| && j <= |q.configured|
         && ScopeAt(p.configured, i).Covers(org) && ScopeAt(q.configured, j).Covers(org)
         ==> p.env.ok(PurgeAt(kind, i)) == q.env.ok(PurgeAt(kind, j))
             && p.env.clock(PurgeAt(kind, i)) == q.env.clock(PurgeAt(kind, j))
  }

  lemma AlikeSpareAlike(p: Pass, q: Pass, kind: Kind, org: string, at: int)
    requires p.Valid() && q.Valid() && Alike(p, q, kind, org)
    ensures Spares(p, kind, org, at) <==> Spares(q, kind, org, at)
  {
    ExactlyOneScope(p.configured, p.Effective(), org);
    ExactlyOneScope(q.configured, q.Effective(), org);
  }

  // Whatever other organisations set, and however many scopes that makes: passes that
  // treat one organisation alike leave the same of its rows.
  lemma {:induction false} TenantsAreIsolatedOverPasses(events: seq<UsageEvent>, jobs: seq<CsvJob>,
      services: map<string, string>, mine: seq<Pass>, theirs: seq<Pass>, e: UsageEvent, j: CsvJob)
    requires AllValid(mine) && AllValid(theirs) && |mine| == |theirs| && e.serviceId in services
    requires forall k :: 0 <= k < |mine| ==>
               Alike(mine[k], theirs[k], Events, services[e.serviceId]) && Alike(mine[k], theirs[k], Jobs, j.orgId)
    ensures e in EventsAfterAll(events, services, mine) <==> e in EventsAfterAll(events, services, theirs)
    ensures j in JobsAfterAll(jobs, mine) <==> j in JobsAfterAll(jobs, theirs)
  {
    EventFateOverPasses(events, services, mine, e);
    EventFateOverPasses(events, services, theirs, e);
    JobFateOverPasses(jobs, mine, j);
    JobFateOverPasses(jobs, theirs, j);
    forall k | 0 <= k < |mine|
      ensures Spares(mine[k], Events, services[e.serviceId], e.recordedAt)
         <==> Spares(theirs[k], Events, services[e.serviceId], e.recordedAt)
      ensures Spares(mine[k], Jobs, j.orgId, j.createdAt) <==> Spares(theirs[k], Jobs, j.orgId, j.createdAt)
    {
      AlikeSpareAlike(mine[k], theirs[k], Events, services[e.serviceId], e.recordedAt);
      AlikeSpareAlike(mine[k], theirs[k], Jobs, j.orgId, j.createdAt);
    }
  }

  // The purge of the organisation's scope in this pass succeeds at this time.
  ghost predicate PurgesAt(p: Pass, kind: Kind, org: string, time: int) {
    exists i: nat :: i <= |p.configured| && ScopeAt(p.configured, i).Covers(org)
      && p.env.ok(PurgeAt(kind, i)) && p.env.clock(PurgeAt(kind, i)) == time
  }

  // A pass under these settings that cannot read them and deletes what is older than
  // the default window.
  ghost predicate LosesWithDefault(p: Pass, kind: Kind, org: string, at: int) {
    !p.readable && exists time :: PurgesAt(p, kind, org, time) && at < time - DEFAULT_DAYS * DAY
  }

  // The settings stay as they are, and no purge of the organisation comes after `now`.
  ghost predicate Before(p: Pass, settings: map<string, string>, kind: Kind, org: string, now: int) {
    p.settings == settings && forall time :: PurgesAt(p, kind, org, time) ==> time <= now
  }

  lemma SparedByPurge(p: Pass, kind: Kind, org: string, at: int)
    requires p.Valid()
    ensures Spares(p, kind, org, at)
       <==> forall time :: PurgesAt(p, kind, org, time) ==> at >= time - WindowDays(p.Effective(), org) * DAY
  {
    ExactlyOneScope(p.configured, p.Effective(), org);
    var i: nat :| i <= |p.configured| && ScopeAt(p.configured, i).Covers(org);
    var time := p.env.clock(PurgeAt(kind, i));
    assert p.env.ok(PurgeAt(kind, i)) ==> PurgesAt(p, kind, org, time);
  }

  lemma EarlierPass(p: Pass, settings: map<string, string>, kind: Kind, org: string, at: int, now: int)
    requires p.Valid() && Before(p, settings, kind, org, now) && at >= now - WindowDays(settings, org) * DAY
    ensures Spares(p, kind, org, at) <==> !LosesWithDefault(p, kind, org, at)
  {
    SparedByPurge(p, kind, org, at);
  }

  // After a pass that reads the settings and succeeds, a row is there exactly if its
  // organisation's window still keeps it and no earlier pass that could not read them
  // lost it: what such a pass keeps too long goes, what it loses does not come back.
  lemma GoodPassMakesGoodExactly(settings: map<string, string>, passes: seq<Pass>, last: Pass,
      kind: Kind, org: string, at: int, now: int)
    requires AllValid(passes + [last]) && last.readable && PurgesAt(last, kind, org, now)
    requires forall p :: p in passes + [last] ==> Before(p, settings, kind, org, now)
    ensures AllSpare(passes + [last], kind, org, at)
       <==> && at >= now - WindowDays(settings, org) * DAY
            && forall p :: p in passes ==> !LosesWithDefault(p, kind, org, at)
  {
    var all := passes + [last];
    assert all[|passes|] == last && last in all;
    SparedByPurge(last, kind, org, at);
    if at >= now - WindowDays(settings, org) * DAY {
      forall k | 0 <= k < |all|
        ensures Spares(all[k], kind, org, at) <==> !LosesWithDefault(all[k], kind, org, at)
      {
        assert all[k] in all;
        EarlierPass(all[k], settings, kind, org, at, now);
      }
      assert forall k :: 0 <= k < |passes| ==> all[k] == passes[k];
    }
  }

  // The same said of the tables.
  lemma {:induction false} LostForGoodExactly(events: seq<UsageEvent>, jobs: seq<CsvJob>, services: map<string, string>,
      settings: map<string, string>, passes: seq<Pass>, last: Pass, e: UsageEvent, j: CsvJob, now: int)
    requires AllValid(passes + [last]) && last.readable
    requires e in events && e.serviceId in services && PurgesAt(last, Events, services[e.serviceId], now)
    requires j in jobs && Finished(j) && PurgesAt(last, Jobs, j.orgId, now)
    requires forall p :: p in passes + [last] ==>
               Before(p, settings, Events, services[e.serviceId], now) && Before(p, settings, Jobs, j.orgId, now)
    ensures e in EventsAfterAll(events, services, passes + [last])
       <==> e in KeptEvents(events, services, settings, now)
            && forall p :: p in passes ==> !LosesWithDefault(p, Events, services[e.serviceId], e.recordedAt)
    ensures j in JobsAfterAll(jobs, passes + [last])
       <==> j in KeptJobs(jobs, settings, now)
            && forall p :: p in passes ==> !LosesWithDefault(p, Jobs, j.orgId, j.createdAt)
  {
    EventFateOverPasses(events, services, passes + [last], e);
    JobFateOverPasses(jobs, passes + [last], j);
    GoodPassMakesGoodExactly(settings, passes, last, Events, services[e.serviceId], e.recordedAt, now);
    GoodPassMakesGoodExactly(settings, passes, last, Jobs, j.orgId, j.createdAt, now);
    FilterMembers(events, x => EventKept(services, settings, now, x), e);
    FilterMembers(jobs, x => JobKept(settings, now, x), j);
  }
}
