/**
 * Scheduled scans of one spec URL (radar-api/src/scans.rs): the statements, and
 * the lease that replicas take on `last_run_at`.
 *
 * Any number of scheduler ticks, of any number of replicas, work on one row.
 * Every statement is one atomic step, and a flag tells whether it succeeded; time
 * is in nanoseconds of a shared clock.
 */
module ScanLease {
  import opened Options

  const MINUTE: int := 60_000_000_000

  datatype RunStatus = NeverRun | Running | Ok | Failed | Skipped

  datatype Row = Row(lastRunAt: Option<int>, status: RunStatus, lastHash: Option<string>)

  // A stored spec of this service and URL.
  datatype Version = Version(at: int, text: string)

  // ---------------------------------------------------------------------
  // Statements
  // ---------------------------------------------------------------------

  // Whole minutes are compared, as `num_minutes` gives them; intervals are at
  // least 15, so that it does not matter how negative ones are rounded.
  predicate IsDue(lastRunAt: Option<int>, now: int, interval: int) {
    lastRunAt == None || (now - lastRunAt.value) / MINUTE >= interval
  }

  // The claim: an update that only takes effect on the value read before.
  function Claimed(row: Row, observed: Option<int>, now: int): Row {
    if row.lastRunAt == observed then row.(lastRunAt := Some(now), status := Running) else row
  }

  function WithStatus(row: Row, at: int, status: RunStatus): Row {
    row.(lastRunAt := Some(at), status := status)
  }

  // The id of a version is derived from its time, so a second one of the same
  // time is not inserted.
  function WithVersion(stored: seq<Version>, v: Version): seq<Version> {
    if exists w :: w in stored && w.at == v.at then stored else stored + [v]
  }

  // The newest stored text, or none at all.
  function NewestText(stored: seq<Version>): string {
    if stored == [] then "" else Newest(stored).text
  }

  function Newest(stored: seq<Version>): Version
    requires stored != []
  {
    if |stored| == 1 then stored[0]
    else
      var v := Newest(stored[..|stored| - 1]);
      if v.at < stored[|stored| - 1].at then stored[|stored| - 1] else v
  }

  class ScanTable {
    var row: Row
    var stored: seq<Version>

    constructor ()
      ensures row == Row(None, NeverRun, None) && stored == []
    {
      row, stored := Row(None, NeverRun, None), [];
    }

    method ClaimScan(observed: Option<int>, now: int) returns (won: bool)
      modifies this`row
      ensures won == (old(row).lastRunAt == observed)
      ensures row == Claimed(old(row), observed, now)
           == if won then Row(Some(now), Running, old(row).lastHash) else old(row)
    {
      match observed {
        case Some(prev) =>
          won := row.lastRunAt.Some? && row.lastRunAt.value == prev;
        case None =>
          won := row.lastRunAt.None?;
      }
      if won {
        row := Row(Some(now), Running, row.lastHash);
      }
    }

    method SetScanStatus(at: int, status: RunStatus)
      modifies this`row
      ensures row == WithStatus(old(row), at, status) == Row(Some(at), status, old(row).lastHash)
    {
      row := Row(Some(at), status, row.lastHash);
    }

    method SetHash(hash: string)
      modifies this`row
      ensures row == old(row).(lastHash := Some(hash))
    {
      row := row.(lastHash := Some(hash));
    }

    method StoreScanSpec(text: string, at: int)
      modifies this`stored
      ensures stored == WithVersion(old(stored), Version(at, text))
    {
      var i := 0;
      while i < |stored|
        invariant 0 <= i <= |stored|
        invariant forall k :: 0 <= k < i ==> stored[k].at != at
      {
        if stored[i].at == at {
          return;
        }
        i := i + 1;
      }
      stored := stored + [Version(at, text)];
    }

    // ORDER BY captured_at DESC LIMIT 1
    method FetchPreviousSpec() returns (text: string)
      ensures text == NewestText(stored)
    {
      if |stored| == 0 {
        return "";
      }
      var newest := stored[0];
      for i := 1 to |stored|
        invariant newest == Newest(stored[..i])
      {
        assert stored[..i + 1][..i] == stored[..i];
        if newest.at < stored[i].at {
          newest := stored[i];
        }
      }
      assert stored[..|stored|] == stored;
      text := newest.text;
    }
  }

  // ---------------------------------------------------------------------
  // Ticks, claims and runs
  // ---------------------------------------------------------------------

  // The next statement of one tick on this scan, or of the run it started.
  datatype Phase =
    | Ticked                                     // the row is still to be read
    | Seen(lastRunAt: Option<int>)               // read; to be claimed if due
    | Won                                        // claimed; the run has not begun
    | Fetching
    | FirstHash(text: string)
    | FirstStore(text: string)
    | NeedBase(text: string)
    | NeedStore(text: string, base: string)
    | NeedDiff(text: string, base: string)
    | NeedHash(text: string)
    | NeedStatus(status: RunStatus)
    | Gone

  // `now` is the time of the tick, which a claim writes; `at` the time of the run.
  datatype Job = Job(now: int, at: int, seenHash: Option<string>, phase: Phase)

  datatype Claim = Claim(observed: Option<int>, now: int)

  datatype Comparison = Comparison(base: string, head: string)

  // The last four fields record what has happened so far.
  datatype State = State(
    clock: int, row: Row, stored: seq<Version>, jobs: seq<Job>,
    claims: seq<Claim>, writes: seq<Option<int>>, fetched: seq<string>, comparisons: seq<Comparison>)

  datatype Reply = Blocked | Broken | Text(text: string)

  datatype Event =
    | Advance(d: nat)
    | Tick
    | Go(j: nat, ok: bool)
    | Answer(j: nat, reply: Reply)
    | Crash(j: nat)

  function WithJob(s: State, j: nat, job: Job): State
    requires j < |s.jobs|
  {
    s.(jobs := s.jobs[j := job])
  }

  // One statement of a job that succeeds.
  function Proceed(sha: string -> string, interval: int, s: State, j: nat): State
    requires j < |s.jobs|
  {
    var job := s.jobs[j];
    match job.phase
    case Ticked => WithJob(s, j, job.(phase := Seen(s.row.lastRunAt), seenHash := s.row.lastHash))
    case Seen(seen) =>
      if !IsDue(seen, job.now, interval) || s.row.lastRunAt != seen then WithJob(s, j, job.(phase := Gone))
      else
        WithJob(s.(row := Claimed(s.row, seen, job.now),
                   claims := s.claims + [Claim(seen, job.now)],
                   writes := s.writes + [Some(job.now)]), j, job.(phase := Won))
    case Won => WithJob(s, j, job.(at := s.clock, phase := Fetching))
    case FirstHash(text) =>
      WithJob(s.(row := s.row.(lastHash := Some(sha(text)))), j, job.(phase := FirstStore(text)))
    case FirstStore(text) =>
      WithJob(s.(stored := WithVersion(s.stored, Version(job.at, text))), j, job.(phase := NeedStatus(Ok)))
    case NeedBase(text) => WithJob(s, j, job.(phase := NeedStore(text, NewestText(s.stored))))
    case NeedStore(text, base) =>
      WithJob(s.(stored := WithVersion(s.stored, Version(job.at, text))), j, job.(phase := NeedDiff(text, base)))
    case NeedDiff(text, base) =>
      WithJob(s.(comparisons := s.comparisons + [Comparison(base, text)]), j, job.(phase := NeedHash(text)))
    case NeedHash(text) =>
      WithJob(s.(row := s.row.(lastHash := Some(sha(text)))), j, job.(phase := NeedStatus(Ok)))
    case NeedStatus(status) =>
      WithJob(s.(row := WithStatus(s.row, job.at, status), writes := s.writes + [Some(job.at)]), j, job.(phase := Gone))
    case _ => s
  }

  // One that fails. A tick gives up; a run only logs the failure or not even that
  // and goes on, without a base if it is the base that cannot be read.
  function Missed(s: State, j: nat): State
    requires j < |s.jobs|
  {
    var job := s.jobs[j];
    match job.phase
    case Ticked | Seen(_) | NeedStatus(_) => WithJob(s, j, job.(phase := Gone))
    case Won => WithJob(s, j, job.(at := s.clock, phase := Fetching))
    case FirstHash(text) => WithJob(s, j, job.(phase := FirstStore(text)))
    case FirstStore(_) | NeedHash(_) => WithJob(s, j, job.(phase := NeedStatus(Ok)))
    case NeedBase(text) => WithJob(s, j, job.(phase := NeedStore(text, "")))
    case NeedStore(text, base) => WithJob(s, j, job.(phase := NeedDiff(text, base)))
    case NeedDiff(text, _) => WithJob(s, j, job.(phase := NeedHash(text)))
    case _ => s
  }

  // The outcome of the fetch: blocked, failed, or a text that is compared by
  // hash with the one read from the row before the claim.
  function Answered(sha: string -> string, s: State, j: nat, reply: Reply): State
    requires j < |s.jobs|
  {
    var job := s.jobs[j];
    if job.phase != Fetching then s
    else
      match reply
      case Blocked => WithJob(s, j, job.(phase := NeedStatus(Skipped)))
      case Broken => WithJob(s, j, job.(phase := NeedStatus(Failed)))
      case Text(text) =>
        WithJob(s.(fetched := s.fetched + [text]), j, job.(phase :=
          if job.seenHash == Some(sha(text)) then NeedStatus(Ok)
          else if job.seenHash == None then FirstHash(text)
          else NeedBase(text)))
  }

  function Step(sha: string -> string, interval: int, s: State, e: Event): State {
    match e
    case Advance(d) => s.(clock := s.clock + d)
    case Tick => s.(jobs := s.jobs + [Job(s.clock, s.clock, None, Ticked)])
    case Go(j, ok) =>
      if j >= |s.jobs| then s else if ok then Proceed(sha, interval, s, j) else Missed(s, j)
    case Answer(j, reply) => if j < |s.jobs| then Answered(sha, s, j, reply) else s
    case Crash(j) => if j < |s.jobs| then WithJob(s, j, s.jobs[j].(phase := Gone)) else s
  }

  function Run(sha: string -> string, interval: int, s: State, events: seq<Event>): State
    decreases |events|
  {
    if events == [] then s else Run(sha, interval, Step(sha, interval, s, events[0]), events[1..])
  }

  function Start(clock: int): State {
    State(clock, Row(None, NeverRun, None), [], [], [], [None], [], [])
  }

  // A run of the scan is under way: claimed and not yet finished.
  predicate Active(job: Job) {
    !job.phase.Ticked? && !job.phase.Seen? && !job.phase.Gone?
  }

  // ---------------------------------------------------------------------
  // No value is claimed more often than it was written
  // ---------------------------------------------------------------------

  function ClaimsOf(claims: seq<Claim>, v: Option<int>): nat {
    if claims == [] then 0
    else ClaimsOf(claims[..|claims| - 1], v) + if claims[|claims| - 1].observed == v then 1 else 0
  }

  function WritesOf(writes: seq<Option<int>>, v: Option<int>): nat {
    if writes == [] then 0
    else WritesOf(writes[..|writes| - 1], v) + if writes[|writes| - 1] == v then 1 else 0
  }

  // The value in the row has been written once more than it was claimed.
  ghost predicate Counted(s: State, v: Option<int>) {
    ClaimsOf(s.claims, v) + (if s.row.lastRunAt == v then 1 else 0) <= WritesOf(s.writes, v)
  }

  lemma StepKeepsCount(sha: string -> string, interval: int, s: State, e: Event, v: Option<int>)
    requires Counted(s, v)
    ensures Counted(Step(sha, interval, s, e), v)
  {
    if e.Go? && e.j < |s.jobs| && e.ok {
      GoKeepsCount(sha, interval, s, e.j, v);
    }
  }

  lemma GoKeepsCount(sha: string -> string, interval: int, s: State, j: nat, v: Option<int>)
    requires Counted(s, v) && j < |s.jobs|
    ensures Counted(Proceed(sha, interval, s, j), v)
  {
    if s.jobs[j].phase.Seen? {
      ClaimKeepsCount(sha, interval, s, j, v);
    } else if s.jobs[j].phase.NeedStatus? {
      StatusKeepsCount(sha, interval, s, j, v);
    } else {
      var t := Proceed(sha, interval, s, j);
      assert t.claims == s.claims && t.writes == s.writes && t.row.lastRunAt == s.row.lastRunAt;
    }
  }

  lemma ClaimKeepsCount(sha: string -> string, interval: int, s: State, j: nat, v: Option<int>)
    requires Counted(s, v) && j < |s.jobs| && s.jobs[j].phase.Seen?
    ensures Counted(Proceed(sha, interval, s, j), v)
  {
  }

  lemma StatusKeepsCount(sha: string -> string, interval: int, s: State, j: nat, v: Option<int>)
    requires Counted(s, v) && j < |s.jobs| && s.jobs[j].phase.NeedStatus?
    ensures Counted(Proceed(sha, interval, s, j), v)
  {
  }

  lemma {:induction false} RunKeepsCount(sha: string -> string, interval: int, s: State, events: seq<Event>,
      v: Option<int>)
    requires Counted(s, v)
    ensures Counted(Run(sha, interval, s, events), v)
    decreases |events|
  {
    if events != [] {
      StepKeepsCount(sha, interval, s, events[0], v);
      RunKeepsCount(sha, interval, Step(sha, interval, s, events[0]), events[1..], v);
    }
  }

  function Observed(claims: seq<Claim>): seq<Option<int>> {
    seq(|claims|, i requires 0 <= i < |claims| => claims[i].observed)
  }

  lemma {:induction false} ClaimsAreCounted(claims: seq<Claim>, v: Option<int>)
    ensures ClaimsOf(claims, v) == multiset(Observed(claims))[v]
  {
    if claims != [] {
      var init, last := claims[..|claims| - 1], claims[|claims| - 1];
      assert Observed(claims) == Observed(init) + [last.observed];
      ClaimsAreCounted(init, v);
    }
  }

  lemma {:induction false} WritesAreCounted(writes: seq<Option<int>>, v: Option<int>)
    ensures WritesOf(writes, v) == multiset(writes)[v]
  {
    if writes != [] {
      var init, last := writes[..|writes| - 1], writes[|writes| - 1];
      assert writes == init + [last];
      WritesAreCounted(init, v);
    }
  }

  // On every run, with late runs, crashes and failing statements.
  lemma {:induction false} NoValueIsClaimedTwice(sha: string -> string, interval: int, clock: int,
      events: seq<Event>, v: Option<int>)
    ensures var s := Run(sha, interval, Start(clock), events);
            multiset(Observed(s.claims))[v] <= multiset(s.writes)[v]
  {
    ClaimsAreCounted(Run(sha, interval, Start(clock), events).claims, v);
    WritesAreCounted(Run(sha, interval, Start(clock), events).writes, v);
    assert WritesOf([None], v) == if v == None then 1 else 0 by {
      var first: seq<Option<int>> := [None];
      assert |first[..0]| == 0;
    }
    RunKeepsCount(sha, interval, Start(clock), events, v);
  }

  ghost predicate Distinct(stored: seq<Version>) {
    forall i, j :: 0 <= i < j < |stored| ==> stored[i].at != stored[j].at
  }

  // On every run, stored specs stay, and no two of them have the same time.
  lemma {:induction false} TimesAreDistinct(sha: string -> string, interval: int, s: State, events: seq<Event>)
    requires Distinct(s.stored)
    ensures var t := Run(sha, interval, s, events); Distinct(t.stored) && s.stored <= t.stored
    decreases |events|
  {
    if events != [] {
      TimesAreDistinct(sha, interval, Step(sha, interval, s, events[0]), events[1..]);
    }
  }

  // ---------------------------------------------------------------------
  // Runs in time do not overlap
  // ---------------------------------------------------------------------

  // No run is under way for as long as an interval after its claim.
  ghost predicate InTime(interval: int, s: State) {
    forall j :: 0 <= j < |s.jobs| && Active(s.jobs[j]) ==> s.clock - s.jobs[j].now < interval * MINUTE
  }

  ghost predicate AlwaysInTime(sha: string -> string, interval: int, s: State, events: seq<Event>)
    decreases |events|
  {
    && InTime(interval, s)
    && (events != [] ==> AlwaysInTime(sha, interval, Step(sha, interval, s, events[0]), events[1..]))
  }

  ghost predicate NotAfter(a: Option<int>, b: Option<int>) {
    a == None || (b.Some? && a.value <= b.value)
  }

  ghost predicate JobOk(s: State, job: Job) {
    && job.now <= s.clock
    && (job.phase.Seen? ==> NotAfter(job.phase.lastRunAt, s.row.lastRunAt))
    && (Active(job) ==> s.row.lastRunAt == Some(job.now))
    && (Active(job) && job.phase != Won ==> job.now <= job.at <= s.clock)
  }

  ghost predicate AtMostOneActive(s: State) {
    forall i, j :: 0 <= i < |s.jobs| && 0 <= j < |s.jobs| && Active(s.jobs[i]) && Active(s.jobs[j]) ==> i == j
  }

  ghost predicate ClaimsSpaced(interval: int, claims: seq<Claim>) {
    forall i :: 0 < i < |claims| ==> claims[i].now >= claims[i - 1].now + interval * MINUTE
  }

  ghost predicate Ascending(writes: seq<Option<int>>) {
    forall i :: 0 < i < |writes| ==> NotAfter(writes[i - 1], writes[i])
  }

  ghost predicate Lease(interval: int, s: State) {
    && (forall j :: 0 <= j < |s.jobs| ==> JobOk(s, s.jobs[j]))
    && AtMostOneActive(s)
    && NotAfter(s.row.lastRunAt, Some(s.clock))
    && ClaimsSpaced(interval, s.claims)
    && (s.claims != [] ==> NotAfter(Some(s.claims[|s.claims| - 1].now), s.row.lastRunAt))
    && Ascending(s.writes) && s.writes != [] && s.writes[|s.writes| - 1] == s.row.lastRunAt
  }

  lemma ClaimFindsNobody(interval: int, s: State, j: nat)
    requires Lease(interval, s) && InTime(interval, s)
    requires j < |s.jobs| && s.jobs[j].phase.Seen? && s.jobs[j].phase.lastRunAt == s.row.lastRunAt
    requires IsDue(s.row.lastRunAt, s.jobs[j].now, interval)
    ensures forall i :: 0 <= i < |s.jobs| ==> !Active(s.jobs[i])
  {
  }

  // A step of one job that leaves the claimed time alone.
  lemma QuietStep(interval: int, s: State, t: State, j: nat, job: Job)
    requires Lease(interval, s) && j < |s.jobs| && t.jobs == s.jobs[j := job]
    requires t.clock == s.clock && t.row.lastRunAt == s.row.lastRunAt && t.claims == s.claims && t.writes == s.writes
    requires JobOk(t, job) && (Active(job) ==> Active(s.jobs[j]))
    ensures Lease(interval, t)
  {
  }

  lemma ClaimKeepsLease(sha: string -> string, interval: int, s: State, j: nat)
    requires interval >= 1 && Lease(interval, s) && InTime(interval, s)
    requires j < |s.jobs| && s.jobs[j].phase.Seen?
    ensures Lease(interval, Proceed(sha, interval, s, j))
  {
    var t := Proceed(sha, interval, s, j);
    var job := s.jobs[j];
    assert JobOk(s, job);
    if IsDue(job.phase.lastRunAt, job.now, interval) && s.row.lastRunAt == job.phase.lastRunAt {
      ClaimFindsNobody(interval, s, j);
      forall i | 0 <= i < |t.jobs| ensures JobOk(t, t.jobs[i]) {
        assert JobOk(s, s.jobs[i]);
      }
    } else {
      QuietStep(interval, s, t, j, job.(phase := Gone));
    }
  }

  lemma StatusKeepsLease(sha: string -> string, interval: int, s: State, j: nat)
    requires Lease(interval, s) && j < |s.jobs| && s.jobs[j].phase.NeedStatus?
    ensures Lease(interval, Proceed(sha, interval, s, j))
  {
  }

  lemma TimeKeepsLease(sha: string -> string, interval: int, s: State, e: Event)
    requires Lease(interval, s) && (e.Advance? || e.Tick?)
    ensures Lease(interval, Step(sha, interval, s, e))
  {
    var t := Step(sha, interval, s, e);
    forall i | 0 <= i < |t.jobs| ensures JobOk(t, t.jobs[i]) {
      if i < |s.jobs| { assert JobOk(s, s.jobs[i]); }
    }
  }

  // Crashes, failing statements and answers of the target leave the row alone.
  lemma FaultKeepsLease(sha: string -> string, interval: int, s: State, e: Event, j: nat)
    requires Lease(interval, s) && j < |s.jobs|
    requires e == Crash(j) || e == Go(j, false) || (e.Answer? && e.j == j)
    ensures Lease(interval, Step(sha, interval, s, e))
  {
    var t := Step(sha, interval, s, e);
    assert JobOk(s, s.jobs[j]);
    QuietStep(interval, s, t, j, t.jobs[j]);
  }

  lemma StepKeepsLease(sha: string -> string, interval: int, s: State, e: Event)
    requires interval >= 1 && Lease(interval, s) && InTime(interval, s)
    ensures Lease(interval, Step(sha, interval, s, e))
  {
    if e.Advance? || e.Tick? {
      TimeKeepsLease(sha, interval, s, e);
    } else if e.j < |s.jobs| {
      if e.Go? && e.ok {
        GoKeepsLease(sha, interval, s, e.j);
      } else {
        FaultKeepsLease(sha, interval, s, e, e.j);
      }
    }
  }

  lemma GoKeepsLease(sha: string -> string, interval: int, s: State, j: nat)
    requires interval >= 1 && Lease(interval, s) && InTime(interval, s) && j < |s.jobs|
    ensures Lease(interval, Proceed(sha, interval, s, j))
  {
    var t := Proceed(sha, interval, s, j);
    assert JobOk(s, s.jobs[j]);
    if s.jobs[j].phase.Seen? {
      ClaimKeepsLease(sha, interval, s, j);
    } else if s.jobs[j].phase.NeedStatus? {
      StatusKeepsLease(sha, interval, s, j);
    } else if t != s {
      QuietStep(interval, s, t, j, t.jobs[j]);
    }
  }

  lemma {:induction false} RunKeepsLease(sha: string -> string, interval: int, s: State, events: seq<Event>)
    requires interval >= 1 && Lease(interval, s) && AlwaysInTime(sha, interval, s, events)
    ensures Lease(interval, Run(sha, interval, s, events)) && InTime(interval, Run(sha, interval, s, events))
    decreases |events|
  {
    if events != [] {
      StepKeepsLease(sha, interval, s, events[0]);
      RunKeepsLease(sha, interval, Step(sha, interval, s, events[0]), events[1..]);
    }
  }

  // Runs that write their status within an interval of their claim never
  // overlap, their claims lie an interval apart, and `last_run_at` never goes
  // back; crashes and failing statements included.
  lemma {:induction false} RunsDoNotOverlap(sha: string -> string, interval: int, clock: int, events: seq<Event>)
    requires interval >= 1 && AlwaysInTime(sha, interval, Start(clock), events)
    ensures var s := Run(sha, interval, Start(clock), events);
            AtMostOneActive(s) && ClaimsSpaced(interval, s.claims) && Ascending(s.writes)
            && s.writes != [] && s.writes[|s.writes| - 1] == s.row.lastRunAt
  {
    RunKeepsLease(sha, interval, Start(clock), events);
  }

  // ---------------------------------------------------------------------
  // What the status in the row says
  // ---------------------------------------------------------------------

  ghost predicate StatusOk(s: State) {
    forall j :: 0 <= j < |s.jobs| ==>
      && (Active(s.jobs[j]) ==> s.row.status == Running)
      && (s.jobs[j].phase.NeedStatus? ==> s.jobs[j].phase.status in {Ok, Failed, Skipped})
  }

  lemma StepKeepsStatus(sha: string -> string, interval: int, s: State, e: Event)
    requires interval >= 1 && Lease(interval, s) && InTime(interval, s) && StatusOk(s)
    ensures StatusOk(Step(sha, interval, s, e))
  {
    var t := Step(sha, interval, s, e);
    forall i | 0 <= i < |t.jobs|
      ensures Active(t.jobs[i]) ==> t.row.status == Running
      ensures t.jobs[i].phase.NeedStatus? ==> t.jobs[i].phase.status in {Ok, Failed, Skipped}
    {
      assert AtMostOneActive(s);
    }
  }

  lemma {:induction false} RunKeepsStatus(sha: string -> string, interval: int, s: State, events: seq<Event>)
    requires interval >= 1 && Lease(interval, s) && StatusOk(s) && AlwaysInTime(sha, interval, s, events)
    ensures StatusOk(Run(sha, interval, s, events))
    decreases |events|
  {
    if events != [] {
      StepKeepsLease(sha, interval, s, events[0]);
      StepKeepsStatus(sha, interval, s, events[0]);
      RunKeepsStatus(sha, interval, Step(sha, interval, s, events[0]), events[1..]);
    }
  }

  // On runs in time, the row says "running" whenever a run is under way.
  lemma {:induction false} ActiveMeansRunning(sha: string -> string, interval: int, clock: int, events: seq<Event>)
    requires interval >= 1 && AlwaysInTime(sha, interval, Start(clock), events)
    ensures var s := Run(sha, interval, Start(clock), events);
            (exists j :: 0 <= j < |s.jobs| && Active(s.jobs[j])) ==> s.row.status == Running
  {
    RunKeepsStatus(sha, interval, Start(clock), events);
  }

  // ---------------------------------------------------------------------
  // Traces
  // ---------------------------------------------------------------------

  lemma {:induction false} RunConcat(sha: string -> string, interval: int, s: State, a: seq<Event>, b: seq<Event>)
    ensures Run(sha, interval, s, a + b) == Run(sha, interval, Run(sha, interval, s, a), b)
    decreases |a|
  {
    if a == [] {
      assert a + b == b;
    } else {
      assert (a + b)[0] == a[0] && (a + b)[1..] == a[1..] + b;
      RunConcat(sha, interval, Step(sha, interval, s, a[0]), a[1..], b);
    }
  }

  lemma {:induction false} RunThen(sha: string -> string, interval: int, s: State, a: seq<Event>, e: Event)
    ensures Run(sha, interval, s, a + [e]) == Step(sha, interval, Run(sha, interval, s, a), e)
  {
    RunConcat(sha, interval, s, a, [e]);
    assert [e][1..] == [];
  }

  lemma {:induction false} RunOf3(sha: string -> string, interval: int, s: State, a: Event, b: Event, c: Event)
    ensures Run(sha, interval, s, [a, b, c])
         == Step(sha, interval, Step(sha, interval, Step(sha, interval, s, a), b), c)
  {
    RunConcat(sha, interval, s, [a, b], [c]);
    RunConcat(sha, interval, s, [a], [b]);
    assert [a] + [b] == [a, b] && [a, b] + [c] == [a, b, c];
    assert [a][1..] == [] && [b][1..] == [] && [c][1..] == [];
  }

  // A tick that nobody interferes with: read the row, claim it if it is due.
  function Undisturbed(s: State): seq<Event> {
    [Tick, Go(|s.jobs|, true), Go(|s.jobs|, true)]
  }

  // In whatever state, it wins the claim exactly from one interval after the time
  // in the row on.
  lemma {:induction false} BecomesDueAgain(sha: string -> string, interval: int, s: State)
    ensures var j := |s.jobs|;
            var t := Run(sha, interval, s, Undisturbed(s));
            && |t.jobs| == j + 1 && t.jobs[..j] == s.jobs && t.clock == s.clock && t.stored == s.stored
            && t.fetched == s.fetched && t.comparisons == s.comparisons
            && t.jobs[j] == Job(s.clock, s.clock, s.row.lastHash, t.jobs[j].phase)
            && (t.jobs[j].phase == Won || t.jobs[j].phase == Gone)
            && (t.jobs[j].phase == Won
                <==> (s.row.lastRunAt.Some? ==> s.clock - s.row.lastRunAt.value >= interval * 60_000_000_000))
            && (t.jobs[j].phase == Won ==> t.row == Claimed(s.row, s.row.lastRunAt, s.clock))
            && (t.jobs[j].phase != Won ==> t.row == s.row)
  {
    var j := |s.jobs|;
    RunOf3(sha, interval, s, Tick, Go(j, true), Go(j, true));
    var s2 := Step(sha, interval, Step(sha, interval, s, Tick), Go(j, true));
    assert s2.jobs == s.jobs + [Job(s.clock, s.clock, s.row.lastHash, Seen(s.row.lastRunAt))];
  }

  // ---------------------------------------------------------------------
  // When runs overlap
  // ---------------------------------------------------------------------

  // Whether a tick that nobody interferes with would start a second run.
  ghost predicate CanOverlap(sha: string -> string, interval: int, s: State) {
    !AtMostOneActive(Run(sha, interval, s, Undisturbed(s)))
  }

  // As long as the lease has held, that is so exactly if some run is out of time.
  lemma OverlapsExactly(sha: string -> string, interval: int, s: State)
    requires interval >= 1 && Lease(interval, s)
    ensures CanOverlap(sha, interval, s) <==> !InTime(interval, s)
  {
    BecomesDueAgain(sha, interval, s);
    var j, t := |s.jobs|, Run(sha, interval, s, Undisturbed(s));
    assert forall i :: 0 <= i < j ==> t.jobs[i] == t.jobs[..j][i] == s.jobs[i];
    if i :| 0 <= i < j && Active(s.jobs[i]) && s.clock - s.jobs[i].now >= interval * MINUTE {
      assert JobOk(s, s.jobs[i]);
      assert Active(t.jobs[i]) && Active(t.jobs[j]);
    }
    if InTime(interval, s) && Active(t.jobs[j]) {
      forall i | 0 <= i < j ensures !Active(s.jobs[i]) {
        assert JobOk(s, s.jobs[i]);
      }
    }
  }

  // At no moment of a run would an undisturbed tick start a second run.
  ghost predicate NeverCanOverlap(sha: string -> string, interval: int, s: State, events: seq<Event>)
    decreases |events|
  {
    !CanOverlap(sha, interval, s)
    && (events != [] ==> NeverCanOverlap(sha, interval, Step(sha, interval, s, events[0]), events[1..]))
  }

  lemma {:induction false} NeverOverlapsFrom(sha: string -> string, interval: int, s: State, events: seq<Event>)
    requires interval >= 1 && Lease(interval, s)
    ensures NeverCanOverlap(sha, interval, s, events) <==> AlwaysInTime(sha, interval, s, events)
    decreases |events|
  {
    OverlapsExactly(sha, interval, s);
    if events != [] && InTime(interval, s) {
      StepKeepsLease(sha, interval, s, events[0]);
      NeverOverlapsFrom(sha, interval, Step(sha, interval, s, events[0]), events[1..]);
    }
  }

  // So the condition of RunsDoNotOverlap is exact: a run keeps clear of overlaps,
  // whenever the next tick comes, if and only if it is always in time.
  lemma {:induction false} NeverOverlapsExactly(sha: string -> string, interval: int, clock: int, events: seq<Event>)
    requires interval >= 1
    ensures NeverCanOverlap(sha, interval, Start(clock), events)
       <==> AlwaysInTime(sha, interval, Start(clock), events)
  {
    NeverOverlapsFrom(sha, interval, Start(clock), events);
  }

  // ---------------------------------------------------------------------
  // When `last_run_at` goes back
  // ---------------------------------------------------------------------

  // A status that is about to be written by a run begun before the time in the row.
  predicate Late(s: State, e: Event) {
    && e.Go? && e.ok && e.j < |s.jobs| && s.jobs[e.j].phase.NeedStatus?
    && s.row.lastRunAt.Some? && s.jobs[e.j].at < s.row.lastRunAt.value
  }

  // In whatever state and with whatever step: never by a claim, a crash or a
  // failing statement.
  lemma GoesBackExactly(sha: string -> string, interval: int, s: State, e: Event)
    requires interval >= 1
    ensures !NotAfter(s.row.lastRunAt, Step(sha, interval, s, e).row.lastRunAt) <==> Late(s, e)
  {
  }

  // A first run claims the scan at time 0.
  lemma {:induction false} FirstRunClaims(sha: string -> string, interval: int)
    ensures Run(sha, interval, Start(0), [Tick, Go(0, true), Go(0, true)])
         == State(0, Row(Some(0), Running, None), [], [Job(0, 0, None, Won)], [Claim(None, 0)], [None, Some(0)], [], [])
  {
    RunOf3(sha, interval, Start(0), Tick, Go(0, true), Go(0, true));
    var s2 := State(0, Row(None, NeverRun, None), [], [Job(0, 0, None, Seen(None))], [], [None], [], []);
    assert Step(sha, interval, Step(sha, interval, Start(0), Tick), Go(0, true)) == s2;
  }

  // It is still to write its status when the interval is over,
  lemma {:induction false} FirstRunStalls(sha: string -> string, interval: int, d: nat, s: State)
    requires s.jobs == [Job(0, 0, None, Won)] && s.clock == 0
    ensures Run(sha, interval, s, [Go(0, true), Answer(0, Broken), Advance(d)])
         == s.(clock := d, jobs := [Job(0, 0, None, NeedStatus(Failed))])
  {
    RunOf3(sha, interval, s, Go(0, true), Answer(0, Broken), Advance(d));
    assert Step(sha, interval, s, Go(0, true)).jobs == [Job(0, 0, None, Fetching)];
  }

  // and a second one claims the scan: it overlaps the first, whose status then
  // moves `last_run_at` back.
  lemma {:induction false} LateStatusMovesBack(sha: string -> string, interval: int)
    requires interval >= 1
    ensures exists events, e ::
      var s := Run(sha, interval, Start(0), events);
      var t := Step(sha, interval, s, e);
      !AtMostOneActive(s) && s.row.lastRunAt == Some(interval * MINUTE) && t.row.lastRunAt == Some(0)
  {
    var a, b := [Tick, Go(0, true), Go(0, true)], [Go(0, true), Answer(0, Broken), Advance(interval * MINUTE)];
    FirstRunClaims(sha, interval);
    var s1 := Run(sha, interval, Start(0), a);
    FirstRunStalls(sha, interval, interval * MINUTE, s1);
    var s2 := Run(sha, interval, s1, b);
    BecomesDueAgain(sha, interval, s2);
    var c := Undisturbed(s2);
    RunConcat(sha, interval, Start(0), a, b);
    RunConcat(sha, interval, Start(0), a + b, c);
    var s3 := Run(sha, interval, Start(0), a + b + c);
    assert s3.jobs[0] == s3.jobs[..1][0];
    assert Active(s3.jobs[0]) && Active(s3.jobs[1]);
    OneWrite(sha, interval, s3);
  }

  lemma OneWrite(sha: string -> string, interval: int, s: State)
    requires |s.jobs| > 0 && s.jobs[0] == Job(0, 0, None, NeedStatus(Failed))
    ensures Step(sha, interval, s, Go(0, true)).row.lastRunAt == Some(0)
  {
  }
}
