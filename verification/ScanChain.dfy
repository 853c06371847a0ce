/**
 * The chain of stored specs of one scheduled scan (radar-api/src/scans.rs): what
 * is stored, hashed and compared over its runs, and which crashes and failing
 * statements break it.
 */
module ScanChain {
  import opened Options
  import opened ScanLease

  // ---------------------------------------------------------------------
  // What keeps under every fault: versions in the order of time
  // ---------------------------------------------------------------------

  function Last<T>(s: seq<T>): T
    requires s != []
  {
    s[|s| - 1]
  }

  ghost predicate Increasing(stored: seq<Version>) {
    forall i :: 0 < i < |stored| ==> stored[i - 1].at < stored[i].at
  }

  ghost predicate Before(stored: seq<Version>, t: int) {
    stored == [] || Last(stored).at < t
  }

  ghost predicate InOrder(s: State, job: Job) {
    match job.phase
    case NeedDiff(_, _) | NeedHash(_) | NeedStatus(_) => Before(s.stored, job.at + 1)
    case Ticked | Seen(_) | Gone => true
    case _ => Before(s.stored, job.now)
  }

  // The next claim cannot come before the newest version.
  ghost predicate Earlier(interval: int, s: State) {
    s.stored == [] || (s.row.lastRunAt.Some? && Last(s.stored).at < s.row.lastRunAt.value + interval * MINUTE)
  }

  ghost predicate NoneActive(s: State) {
    forall j :: 0 <= j < |s.jobs| ==> !Active(s.jobs[j])
  }

  // A tick that can still win the claim has read the hash that is in the row.
  ghost predicate HashIsCurrent(interval: int, s: State, job: Job) {
    && ((job.phase.Seen? && job.phase.lastRunAt == s.row.lastRunAt && IsDue(job.phase.lastRunAt, job.now, interval))
        ==> job.seenHash == s.row.lastHash)
    && (job.phase == Won || job.phase == Fetching ==> job.seenHash == s.row.lastHash)
  }

  ghost predicate Sound(interval: int, s: State) {
    && Increasing(s.stored)
    && (forall j :: 0 <= j < |s.jobs| ==> InOrder(s, s.jobs[j]) && HashIsCurrent(interval, s, s.jobs[j]))
    && (NoneActive(s) ==> Earlier(interval, s))
  }

  lemma {:induction false} NewestIsLast(stored: seq<Version>)
    requires stored != [] && Increasing(stored)
    ensures Newest(stored) == Last(stored)
  {
    if |stored| > 1 {
      NewestIsLast(stored[..|stored| - 1]);
    }
  }

  lemma {:induction false} AllUpToLast(stored: seq<Version>, v: Version)
    requires Increasing(stored) && v in stored
    ensures v.at <= Last(stored).at
  {
    var init := stored[..|stored| - 1];
    assert stored == init + [Last(stored)];
    if v in init {
      AllUpToLast(init, v);
    }
  }

  lemma StoreLater(stored: seq<Version>, v: Version)
    requires Increasing(stored) && Before(stored, v.at)
    ensures WithVersion(stored, v) == stored + [v] && Increasing(stored + [v])
  {
    forall w | w in stored ensures w.at != v.at {
      AllUpToLast(stored, w);
    }
  }

  // The one job under way moves on, or ends.
  lemma ActiveKeepsSound(interval: int, s: State, t: State, j: nat)
    requires interval >= 1 && Sound(interval, s) && Lease(interval, s) && InTime(interval, s)
    requires j < |s.jobs| && Active(s.jobs[j])
    requires |t.jobs| == |s.jobs| && t.jobs == s.jobs[j := t.jobs[j]] && t.clock == s.clock
    requires t.row.lastRunAt == s.row.lastRunAt
          || (s.jobs[j].phase != Won && t.row.lastRunAt == Some(s.jobs[j].at))
    requires Increasing(t.stored) && InOrder(t, t.jobs[j]) && HashIsCurrent(interval, t, t.jobs[j])
    requires !Active(t.jobs[j]) ==> Earlier(interval, t)
    ensures Sound(interval, t)
  {
    assert forall i :: 0 <= i < |s.jobs| && Active(s.jobs[i]) ==> i == j;
    forall i | 0 <= i < |t.jobs| && i != j ensures InOrder(t, t.jobs[i]) && HashIsCurrent(interval, t, t.jobs[i]) {
      assert JobOk(s, s.jobs[j]) && JobOk(s, s.jobs[i]);
    }
  }

  lemma StoreIsInOrder(interval: int, s: State, j: nat, text: string)
    requires Sound(interval, s) && Lease(interval, s) && j < |s.jobs|
    requires s.jobs[j].phase.FirstStore? || s.jobs[j].phase.NeedStore?
    ensures var v := Version(s.jobs[j].at, text);
            WithVersion(s.stored, v) == s.stored + [v] && Increasing(s.stored + [v]) && Last(s.stored + [v]) == v
  {
    assert JobOk(s, s.jobs[j]) && InOrder(s, s.jobs[j]);
    StoreLater(s.stored, Version(s.jobs[j].at, text));
  }

  lemma ProceedKeepsSound(sha: string -> string, interval: int, s: State, j: nat)
    requires interval >= 1 && Sound(interval, s) && Lease(interval, s) && InTime(interval, s)
    requires j < |s.jobs| && Active(s.jobs[j]) && s.jobs[j].phase != Fetching
    ensures Sound(interval, Proceed(sha, interval, s, j))
  {
    assert JobOk(s, s.jobs[j]) && InOrder(s, s.jobs[j]) && HashIsCurrent(interval, s, s.jobs[j]);
    if s.jobs[j].phase.FirstStore? || s.jobs[j].phase.NeedStore? {
      StoreIsInOrder(interval, s, j, s.jobs[j].phase.text);
    }
    ActiveKeepsSound(interval, s, Proceed(sha, interval, s, j), j);
  }

  // Crashes, failing statements and answers.
  lemma FaultKeepsSound(sha: string -> string, interval: int, s: State, e: Event, j: nat)
    requires interval >= 1 && Sound(interval, s) && Lease(interval, s) && InTime(interval, s)
    requires j < |s.jobs| && Active(s.jobs[j])
    requires e == Crash(j) || e == Go(j, false) || (e.Answer? && e.j == j)
    ensures Sound(interval, Step(sha, interval, s, e))
  {
    assert JobOk(s, s.jobs[j]) && InOrder(s, s.jobs[j]) && HashIsCurrent(interval, s, s.jobs[j]);
    ActiveKeepsSound(interval, s, Step(sha, interval, s, e), j);
  }

  // A job that was and stays inactive changes.
  lemma SettleKeepsSound(interval: int, s: State, t: State, j: nat)
    requires Sound(interval, s) && j < |s.jobs| && !Active(s.jobs[j])
    requires t == s.(jobs := t.jobs) && |t.jobs| == |s.jobs| && t.jobs == s.jobs[j := t.jobs[j]]
    requires !Active(t.jobs[j]) && HashIsCurrent(interval, t, t.jobs[j])
    ensures Sound(interval, t)
    ensures NoneActive(t) ==> NoneActive(s)
  {
    if NoneActive(t) {
      forall i | 0 <= i < |s.jobs| ensures !Active(s.jobs[i]) {
        if i != j { assert t.jobs[i] == s.jobs[i]; }
      }
    }
    forall i | 0 <= i < |t.jobs| ensures InOrder(t, t.jobs[i]) && HashIsCurrent(interval, t, t.jobs[i]) {
      assert InOrder(s, s.jobs[i]) && HashIsCurrent(interval, s, s.jobs[i]);
    }
  }

  lemma ClaimKeepsSound(sha: string -> string, interval: int, s: State, j: nat)
    requires interval >= 1 && Sound(interval, s) && Lease(interval, s) && InTime(interval, s)
    requires j < |s.jobs| && s.jobs[j].phase.Seen?
    ensures var t := Proceed(sha, interval, s, j);
            && Sound(interval, t)
            && (t.jobs[j].phase == Won ==> NoneActive(s) && t.jobs[j].seenHash == s.row.lastHash == t.row.lastHash)
  {
    var t := Proceed(sha, interval, s, j);
    var job := s.jobs[j];
    assert JobOk(s, job) && HashIsCurrent(interval, s, job);
    if IsDue(job.phase.lastRunAt, job.now, interval) && s.row.lastRunAt == job.phase.lastRunAt {
      ClaimFindsNobody(interval, s, j);
      forall i | 0 <= i < |t.jobs| ensures InOrder(t, t.jobs[i]) && HashIsCurrent(interval, t, t.jobs[i]) {
        assert JobOk(s, s.jobs[i]);
      }
    } else {
      SettleKeepsSound(interval, s, t, j);
    }
  }

  lemma TimeKeepsSound(sha: string -> string, interval: int, s: State, e: Event)
    requires Sound(interval, s) && (e.Advance? || e.Tick?)
    ensures Sound(interval, Step(sha, interval, s, e))
    ensures NoneActive(Step(sha, interval, s, e)) ==> NoneActive(s)
  {
    var t := Step(sha, interval, s, e);
    forall i | 0 <= i < |t.jobs| ensures InOrder(t, t.jobs[i]) && HashIsCurrent(interval, t, t.jobs[i]) {
      if i < |s.jobs| { assert InOrder(s, s.jobs[i]) && HashIsCurrent(interval, s, s.jobs[i]); }
    }
    if NoneActive(t) {
      forall i | 0 <= i < |s.jobs| ensures !Active(s.jobs[i]) { assert t.jobs[i] == s.jobs[i]; }
    }
  }

  lemma StepKeepsSound(sha: string -> string, interval: int, s: State, e: Event)
    requires interval >= 1 && Sound(interval, s) && Lease(interval, s) && InTime(interval, s)
    ensures Sound(interval, Step(sha, interval, s, e))
  {
    if e.Advance? || e.Tick? {
      TimeKeepsSound(sha, interval, s, e);
    } else if e.j < |s.jobs| {
      var job := s.jobs[e.j];
      if Active(job) {
        if !e.Go? || !e.ok {
          FaultKeepsSound(sha, interval, s, e, e.j);
        } else if job.phase != Fetching {
          ProceedKeepsSound(sha, interval, s, e.j);
        }
      } else if e.Go? && e.ok && job.phase.Seen? {
        ClaimKeepsSound(sha, interval, s, e.j);
      } else {
        SettleKeepsSound(interval, s, Step(sha, interval, s, e), e.j);
      }
    }
  }

  // ---------------------------------------------------------------------
  // What keeps without a fault in the middle of a run: hash, newest version and
  // last fetched text belong together
  // ---------------------------------------------------------------------

  // The pairs of different texts that followed one another.
  function Changes(fetched: seq<string>): seq<Comparison> {
    var n := |fetched|;
    if n < 2 then []
    else Changes(fetched[..n - 1])
         + if fetched[n - 2] != fetched[n - 1] then [Comparison(fetched[n - 2], fetched[n - 1])] else []
  }

  // Between runs, every change has been compared.
  ghost predicate Synced(sha: string -> string, s: State) {
    if s.stored == [] then s.row.lastHash == None && s.fetched == [] && s.comparisons == []
    else
      && s.row.lastHash == Some(sha(Last(s.stored).text))
      && s.fetched != [] && Last(s.fetched) == Last(s.stored).text
      && s.comparisons == Changes(s.fetched)
  }

  // The last fetch gave another text than the one before.
  ghost predicate Changed(s: State, base: string, text: string) {
    var n := |s.fetched|;
    n >= 2 && s.fetched[n - 1] == text && s.fetched[n - 2] == base && base != text
  }

  ghost predicate Uncompared(s: State, base: string, text: string) {
    Changed(s, base, text) && s.comparisons == Changes(s.fetched[..|s.fetched| - 1])
  }

  ghost predicate InChain(sha: string -> string, s: State, job: Job) {
    match job.phase
    case Won | Fetching | NeedStatus(_) => Synced(sha, s)
    case FirstHash(text) =>
      s.stored == [] && s.row.lastHash == None && s.fetched == [text] && s.comparisons == []
    case FirstStore(text) =>
      s.stored == [] && s.row.lastHash == Some(sha(text)) && s.fetched == [text] && s.comparisons == []
    case NeedBase(text) =>
      s.stored != [] && s.row.lastHash == Some(sha(Last(s.stored).text)) && Uncompared(s, Last(s.stored).text, text)
    case NeedStore(text, base) =>
      && s.stored != [] && base == Last(s.stored).text
      && s.row.lastHash == Some(sha(base)) && Uncompared(s, base, text)
    case NeedDiff(text, base) =>
      && s.stored != [] && Last(s.stored).text == text
      && s.row.lastHash == Some(sha(base)) && Uncompared(s, base, text)
    case NeedHash(text) =>
      var n := |s.fetched|;
      && s.stored != [] && Last(s.stored).text == text
      && n >= 2 && Changed(s, s.fetched[n - 2], text)
      && s.row.lastHash == Some(sha(s.fetched[n - 2])) && s.comparisons == Changes(s.fetched)
    case _ => true
  }

  ghost predicate Texts(sha: string -> string, s: State) {
    && (forall j :: 0 <= j < |s.jobs| && Active(s.jobs[j]) ==> InChain(sha, s, s.jobs[j]))
    && (NoneActive(s) ==> Synced(sha, s))
  }

  ghost predicate Chain(sha: string -> string, interval: int, s: State) {
    Sound(interval, s) && Texts(sha, s)
  }

  ghost predicate Injective(sha: string -> string) {
    forall a, b :: sha(a) == sha(b) ==> a == b
  }

  // Between the fetch of a new text and the status write.
  predicate Mid(phase: Phase) {
    phase.FirstHash? || phase.FirstStore? || phase.NeedBase? || phase.NeedStore? || phase.NeedDiff? || phase.NeedHash?
  }

  // A crash or a failing statement that does not hit a run there; not to find the
  // base does no harm if the base is empty.
  predicate Harmless(s: State, e: Event) {
    match e
    case Crash(j) => j < |s.jobs| ==> !Mid(s.jobs[j].phase)
    case Go(j, ok) =>
      (j < |s.jobs| && !ok && Mid(s.jobs[j].phase)) ==> (s.jobs[j].phase.NeedBase? && NewestText(s.stored) == "")
    case _ => true
  }

  ghost predicate AlwaysHarmless(sha: string -> string, interval: int, s: State, events: seq<Event>)
    decreases |events|
  {
    events != [] ==>
      Harmless(s, events[0]) && AlwaysHarmless(sha, interval, Step(sha, interval, s, events[0]), events[1..])
  }

  lemma {:induction false} OneMoreFetched(fetched: seq<string>, text: string)
    requires fetched != []
    ensures Changes(fetched + [text])
         == Changes(fetched) + if Last(fetched) != text then [Comparison(Last(fetched), text)] else []
    ensures (fetched + [text])[..|fetched|] == fetched
  {
  }

  lemma ActiveKeepsTexts(sha: string -> string, s: State, t: State, j: nat)
    requires AtMostOneActive(s) && j < |s.jobs| == |t.jobs| && Active(s.jobs[j]) && t.jobs == s.jobs[j := t.jobs[j]]
    requires if Active(t.jobs[j]) then InChain(sha, t, t.jobs[j]) else Synced(sha, t)
    ensures Texts(sha, t)
  {
    assert forall i :: 0 <= i < |t.jobs| && Active(t.jobs[i]) ==> i == j;
    if NoneActive(t) {
      assert !Active(t.jobs[j]);
    }
  }

  // What the answer to a fetch leads to.
  lemma AnswerKeepsTexts(sha: string -> string, interval: int, s: State, j: nat, reply: Reply)
    requires Injective(sha) && Chain(sha, interval, s) && AtMostOneActive(s)
    requires j < |s.jobs| && s.jobs[j].phase == Fetching
    ensures Texts(sha, Answered(sha, s, j, reply))
  {
    var t := Answered(sha, s, j, reply);
    assert InChain(sha, s, s.jobs[j]) && HashIsCurrent(interval, s, s.jobs[j]);
    if reply.Text? {
      AnswerStaysInChain(sha, s, j, reply.text);
    }
    ActiveKeepsTexts(sha, s, t, j);
  }

  lemma AnswerStaysInChain(sha: string -> string, s: State, j: nat, text: string)
    requires Injective(sha) && j < |s.jobs| && s.jobs[j].phase == Fetching
    requires Synced(sha, s) && s.jobs[j].seenHash == s.row.lastHash
    ensures var t := Answered(sha, s, j, Text(text)); Active(t.jobs[j]) && InChain(sha, t, t.jobs[j])
  {
    if s.stored == [] {
      assert s.fetched + [text] == [text];
    } else {
      OneMoreFetched(s.fetched, text);
      assert (s.fetched + [text])[|s.fetched| - 1] == Last(s.fetched);
    }
  }

  lemma DiffKeepsTexts(sha: string -> string, interval: int, s: State, j: nat)
    requires j < |s.jobs| && s.jobs[j].phase.NeedDiff? && InChain(sha, s, s.jobs[j])
    ensures var t := Proceed(sha, interval, s, j); InChain(sha, t, t.jobs[j])
  {
    var text, before := s.jobs[j].phase.text, s.fetched[..|s.fetched| - 1];
    assert before + [text] == s.fetched;
    OneMoreFetched(before, text);
  }

  // What each statement of a run leads to.
  lemma ProceedKeepsTexts(sha: string -> string, interval: int, s: State, j: nat)
    requires Chain(sha, interval, s) && Lease(interval, s)
    requires j < |s.jobs| && Active(s.jobs[j]) && s.jobs[j].phase != Fetching
    ensures Texts(sha, Proceed(sha, interval, s, j))
  {
    assert InChain(sha, s, s.jobs[j]);
    ProceedStaysInChain(sha, interval, s, j);
    ActiveKeepsTexts(sha, s, Proceed(sha, interval, s, j), j);
  }

  lemma ProceedStaysInChain(sha: string -> string, interval: int, s: State, j: nat)
    requires Sound(interval, s) && Lease(interval, s)
    requires j < |s.jobs| && Active(s.jobs[j]) && s.jobs[j].phase != Fetching && InChain(sha, s, s.jobs[j])
    ensures var t := Proceed(sha, interval, s, j);
            if Active(t.jobs[j]) then InChain(sha, t, t.jobs[j]) else Synced(sha, t)
  {
    var job := s.jobs[j];
    if job.phase.FirstStore? || job.phase.NeedStore? {
      StoreIsInOrder(interval, s, j, job.phase.text);
    } else if job.phase.NeedBase? {
      NewestIsLast(s.stored);
    } else if job.phase.NeedDiff? {
      DiffKeepsTexts(sha, interval, s, j);
    }
  }

  lemma HarmlessKeepsTexts(sha: string -> string, interval: int, s: State, e: Event, j: nat)
    requires Chain(sha, interval, s) && Lease(interval, s) && Harmless(s, e)
    requires j < |s.jobs| && Active(s.jobs[j]) && (e == Crash(j) || e == Go(j, false))
    ensures Texts(sha, Step(sha, interval, s, e))
  {
    assert InChain(sha, s, s.jobs[j]);
    if e.Go? && (s.jobs[j].phase == Won || s.jobs[j].phase.NeedBase?) {
      assert Missed(s, j) == Proceed(sha, interval, s, j);
      ProceedKeepsTexts(sha, interval, s, j);
    } else {
      ActiveKeepsTexts(sha, s, Step(sha, interval, s, e), j);
    }
  }

  lemma StepKeepsTexts(sha: string -> string, interval: int, s: State, e: Event)
    requires Injective(sha) && interval >= 1 && Harmless(s, e)
    requires Chain(sha, interval, s) && Lease(interval, s) && InTime(interval, s)
    ensures Texts(sha, Step(sha, interval, s, e))
  {
    if e.Advance? || e.Tick? {
      TimeKeepsTexts(sha, interval, s, e);
    } else if e.j < |s.jobs| {
      if Active(s.jobs[e.j]) {
        ActiveStepKeepsTexts(sha, interval, s, e, e.j);
      } else if e.Go? && e.ok && s.jobs[e.j].phase.Seen? {
        ClaimKeepsTexts(sha, interval, s, e.j);
      } else {
        SettleKeepsTexts(sha, interval, s, Step(sha, interval, s, e), e.j);
      }
    }
  }

  lemma TimeKeepsTexts(sha: string -> string, interval: int, s: State, e: Event)
    requires Chain(sha, interval, s) && (e.Advance? || e.Tick?)
    ensures Texts(sha, Step(sha, interval, s, e))
  {
    var t := Step(sha, interval, s, e);
    TimeKeepsSound(sha, interval, s, e);
    forall i | 0 <= i < |t.jobs| && Active(t.jobs[i]) ensures InChain(sha, t, t.jobs[i]) {
      assert InChain(sha, s, s.jobs[i]);
    }
  }

  lemma ClaimKeepsTexts(sha: string -> string, interval: int, s: State, j: nat)
    requires interval >= 1 && Chain(sha, interval, s) && Lease(interval, s) && InTime(interval, s)
    requires j < |s.jobs| && s.jobs[j].phase.Seen?
    ensures Texts(sha, Proceed(sha, interval, s, j))
  {
    ClaimKeepsSound(sha, interval, s, j);
    var t := Proceed(sha, interval, s, j);
    if t.jobs[j].phase == Won {
      assert Synced(sha, t);
    } else {
      SettleKeepsTexts(sha, interval, s, t, j);
    }
  }

  lemma ActiveStepKeepsTexts(sha: string -> string, interval: int, s: State, e: Event, j: nat)
    requires Injective(sha) && Harmless(s, e) && Chain(sha, interval, s) && Lease(interval, s)
    requires !e.Advance? && !e.Tick? && e.j == j < |s.jobs| && Active(s.jobs[j])
    ensures Texts(sha, Step(sha, interval, s, e))
  {
    match e
    case Answer(_, reply) =>
      if s.jobs[j].phase == Fetching {
        AnswerKeepsTexts(sha, interval, s, j, reply);
      }
    case Go(_, ok) =>
      if !ok {
        HarmlessKeepsTexts(sha, interval, s, e, j);
      } else if s.jobs[j].phase != Fetching {
        ProceedKeepsTexts(sha, interval, s, j);
      }
    case Crash(_) => HarmlessKeepsTexts(sha, interval, s, e, j);
  }

  lemma SettleKeepsTexts(sha: string -> string, interval: int, s: State, t: State, j: nat)
    requires Chain(sha, interval, s) && j < |s.jobs| && !Active(s.jobs[j])
    requires t == s.(jobs := t.jobs) && |t.jobs| == |s.jobs| && t.jobs == s.jobs[j := t.jobs[j]]
    requires !Active(t.jobs[j]) && HashIsCurrent(interval, t, t.jobs[j])
    ensures Texts(sha, t)
  {
    SettleKeepsSound(interval, s, t, j);
    forall i | 0 <= i < |t.jobs| && Active(t.jobs[i]) ensures InChain(sha, t, t.jobs[i]) {
      assert t.jobs[i] == s.jobs[i] && InChain(sha, s, s.jobs[i]);
    }
  }

  lemma {:induction false} RunKeepsChain(sha: string -> string, interval: int, s: State, events: seq<Event>)
    requires Injective(sha) && interval >= 1 && AlwaysHarmless(sha, interval, s, events)
    requires Chain(sha, interval, s) && Lease(interval, s) && AlwaysInTime(sha, interval, s, events)
    ensures Chain(sha, interval, Run(sha, interval, s, events))
    decreases |events|
  {
    if events != [] {
      StepKeepsLease(sha, interval, s, events[0]);
      StepKeepsSound(sha, interval, s, events[0]);
      StepKeepsTexts(sha, interval, s, events[0]);
      RunKeepsChain(sha, interval, Step(sha, interval, s, events[0]), events[1..]);
    }
  }

  // A run in time from the beginning whose faults are harmless.
  ghost predicate Undamaged(sha: string -> string, interval: int, clock: int, events: seq<Event>) {
    && interval >= 1 && Injective(sha)
    && AlwaysInTime(sha, interval, Start(clock), events) && AlwaysHarmless(sha, interval, Start(clock), events)
  }

  lemma {:induction false} ChainHolds(sha: string -> string, interval: int, clock: int, events: seq<Event>)
    requires Undamaged(sha, interval, clock, events)
    ensures var s := Run(sha, interval, Start(clock), events);
            Chain(sha, interval, s) && Lease(interval, s) && InTime(interval, s)
  {
    RunKeepsLease(sha, interval, Start(clock), events);
    RunKeepsChain(sha, interval, Start(clock), events);
  }

  ghost predicate HashMatches(sha: string -> string, s: State) {
    s.row.lastHash == if s.stored == [] then None else Some(sha(NewestText(s.stored)))
  }

  ghost predicate AllCompared(s: State) {
    s.comparisons == Changes(s.fetched)
  }

  // Whenever no run is under way: the hash in the row is that of the newest stored
  // spec, which is the last text fetched, and the comparisons made are exactly the
  // changes between successive fetches.
  lemma {:induction false} ChainIsComplete(sha: string -> string, interval: int, clock: int, events: seq<Event>)
    requires Undamaged(sha, interval, clock, events)
    ensures var s := Run(sha, interval, Start(clock), events);
            NoneActive(s) ==>
              && AllCompared(s) && HashMatches(sha, s)
              && (s.fetched == [] <==> s.stored == [])
              && (s.stored != [] ==> NewestText(s.stored) == Last(s.fetched))
  {
    ChainHolds(sha, interval, clock, events);
    var s := Run(sha, interval, Start(clock), events);
    if s.stored != [] {
      NewestIsLast(s.stored);
    }
  }

  // A tick that is about to win its claim works with the hash that is in the row,
  // whatever crashes and failing statements came before.
  lemma {:induction false} ClaimedHashIsCurrent(sha: string -> string, interval: int, clock: int,
      events: seq<Event>, j: nat)
    requires interval >= 1 && AlwaysInTime(sha, interval, Start(clock), events)
    requires var s := Run(sha, interval, Start(clock), events);
             j < |s.jobs| && s.jobs[j].phase.Seen? && Proceed(sha, interval, s, j).jobs[j].phase == Won
    ensures var s := Run(sha, interval, Start(clock), events);
            j < |s.jobs| && s.jobs[j].seenHash == s.row.lastHash == Proceed(sha, interval, s, j).row.lastHash
  {
    SoundHolds(sha, interval, Start(clock), events);
    var s := Run(sha, interval, Start(clock), events);
    assert HashIsCurrent(interval, s, s.jobs[j]);
  }

  lemma {:induction false} SoundHolds(sha: string -> string, interval: int, s: State, events: seq<Event>)
    requires interval >= 1 && Sound(interval, s) && Lease(interval, s) && AlwaysInTime(sha, interval, s, events)
    ensures var t := Run(sha, interval, s, events); Sound(interval, t) && Lease(interval, t) && InTime(interval, t)
    decreases |events|
  {
    if events != [] {
      StepKeepsLease(sha, interval, s, events[0]);
      StepKeepsSound(sha, interval, s, events[0]);
      SoundHolds(sha, interval, Step(sha, interval, s, events[0]), events[1..]);
    }
  }

  // Every comparison under way has for its base the text of the successful fetch
  // before the one it compares.
  lemma {:induction false} BaseIsPreviousFetch(sha: string -> string, interval: int, clock: int, events: seq<Event>,
      j: nat)
    requires Undamaged(sha, interval, clock, events)
    requires var s := Run(sha, interval, Start(clock), events); j < |s.jobs| && s.jobs[j].phase.NeedDiff?
    ensures var s := Run(sha, interval, Start(clock), events); var n := |s.fetched|;
            && n >= 2 && j < |s.jobs| && s.jobs[j].phase.NeedDiff?
            && s.jobs[j].phase == NeedDiff(s.fetched[n - 1], s.fetched[n - 2])
            && s.fetched[n - 1] != s.fetched[n - 2]
  {
    ChainHolds(sha, interval, clock, events);
    var s := Run(sha, interval, Start(clock), events);
    assert InChain(sha, s, s.jobs[j]);
  }

  // ---------------------------------------------------------------------
  // What a crash or a failing statement breaks
  // ---------------------------------------------------------------------

  function PhaseRank(phase: Phase): nat {
    match phase
    case FirstHash(_) => 3
    case FirstStore(_) => 2
    case NeedBase(_) => 5
    case NeedStore(_, _) => 4
    case NeedDiff(_, _) => 3
    case NeedHash(_) => 2
    case NeedStatus(_) => 1
    case _ => 0
  }

  // The rest of a run that has its answer, undisturbed.
  function Finished(sha: string -> string, interval: int, s: State, j: nat): State
    requires j < |s.jobs|
    decreases PhaseRank(s.jobs[j].phase)
  {
    if PhaseRank(s.jobs[j].phase) == 0 then s
    else Finished(sha, interval, Proceed(sha, interval, s, j), j)
  }

  // It is one of the runs of the machine, without a fault and in time if the state is.
  lemma {:induction false} FinishedIsARun(sha: string -> string, interval: int, s: State, j: nat)
    returns (events: seq<Event>)
    requires interval >= 1 && j < |s.jobs| && InTime(interval, s)
    ensures Run(sha, interval, s, events) == Finished(sha, interval, s, j)
    ensures AlwaysInTime(sha, interval, s, events) && AlwaysHarmless(sha, interval, s, events)
    ensures var t := Finished(sha, interval, s, j); |t.jobs| == |s.jobs| && t.jobs == s.jobs[j := t.jobs[j]]
    ensures PhaseRank(s.jobs[j].phase) > 0 ==> Finished(sha, interval, s, j).jobs[j].phase == Gone
    decreases PhaseRank(s.jobs[j].phase)
  {
    if PhaseRank(s.jobs[j].phase) == 0 {
      events := [];
    } else {
      var next := Proceed(sha, interval, s, j);
      assert InTime(interval, next);
      var rest := FinishedIsARun(sha, interval, next, j);
      events := [Go(j, true)] + rest;
      assert events[1..] == rest;
    }
  }

  // What the rest of a run that compares leaves behind.
  lemma {:induction false} ComparingRunFinished(sha: string -> string, interval: int, s: State, j: nat)
    requires j < |s.jobs| && (s.jobs[j].phase.NeedDiff? || s.jobs[j].phase.NeedHash? || s.jobs[j].phase.NeedStatus?)
    ensures var t := Finished(sha, interval, s, j); var phase := s.jobs[j].phase;
            && t.stored == s.stored && t.fetched == s.fetched
            && t.comparisons == s.comparisons + (if phase.NeedDiff? then [Comparison(phase.base, phase.text)] else [])
            && t.row.lastHash == if phase.NeedStatus? then s.row.lastHash else Some(sha(phase.text))
    decreases PhaseRank(s.jobs[j].phase)
  {
    var next := Proceed(sha, interval, s, j);
    if s.jobs[j].phase.NeedStatus? {
      assert Finished(sha, interval, next, j) == next;
    } else {
      ComparingRunFinished(sha, interval, next, j);
    }
  }

  lemma {:induction false} FirstRunFinished(sha: string -> string, interval: int, s: State, j: nat)
    requires j < |s.jobs| && s.stored == [] && s.jobs[j].phase.FirstStore?
    ensures var t := Finished(sha, interval, s, j); var text := s.jobs[j].phase.text;
            && t.stored == [Version(s.jobs[j].at, text)] && t.comparisons == s.comparisons && t.fetched == s.fetched
            && t.row.lastHash == s.row.lastHash
  {
    ComparingRunFinished(sha, interval, Proceed(sha, interval, s, j), j);
  }

  // A crash after an undamaged run breaks the hash exactly between the two writes
  // that belong together, and leaves a change uncompared exactly before the
  // comparison is recorded.
  lemma {:induction false} CrashBreaksExactly(sha: string -> string, interval: int, clock: int,
      events: seq<Event>, j: nat)
    requires Undamaged(sha, interval, clock, events)
    requires var s := Run(sha, interval, Start(clock), events); j < |s.jobs| && Active(s.jobs[j])
    ensures var s := Run(sha, interval, Start(clock), events); var t := Step(sha, interval, s, Crash(j));
            && j < |s.jobs|
            && (HashMatches(sha, t)
                <==> !s.jobs[j].phase.FirstStore? && !s.jobs[j].phase.NeedDiff? && !s.jobs[j].phase.NeedHash?)
            && (AllCompared(t)
                <==> !s.jobs[j].phase.NeedBase? && !s.jobs[j].phase.NeedStore? && !s.jobs[j].phase.NeedDiff?)
  {
    ChainHolds(sha, interval, clock, events);
    var s := Run(sha, interval, Start(clock), events);
    assert InChain(sha, s, s.jobs[j]);
    if s.stored != [] {
      NewestIsLast(s.stored);
    }
    ComparedOrNot(sha, s, j);
  }

  lemma ComparedOrNot(sha: string -> string, s: State, j: nat)
    requires j < |s.jobs| && Active(s.jobs[j]) && InChain(sha, s, s.jobs[j])
    ensures AllCompared(s)
       <==> !s.jobs[j].phase.NeedBase? && !s.jobs[j].phase.NeedStore? && !s.jobs[j].phase.NeedDiff?
  {
    var phase := s.jobs[j].phase;
    if phase.NeedBase? {
      LastChange(s, Last(s.stored).text, phase.text);
    } else if phase.NeedStore? || phase.NeedDiff? {
      LastChange(s, phase.base, phase.text);
    }
  }

  // A statement that fails, with the rest of the run undisturbed, breaks the hash
  // exactly if it was to write a hash or a version, and the comparisons exactly if
  // it was to record one, or to read a base that is not empty.
  lemma {:induction false} FailureBreaksExactly(sha: string -> string, interval: int, clock: int,
      events: seq<Event>, j: nat)
    requires Undamaged(sha, interval, clock, events)
    requires var s := Run(sha, interval, Start(clock), events);
             j < |s.jobs| && Active(s.jobs[j]) && s.jobs[j].phase != Won && s.jobs[j].phase != Fetching
    ensures var s := Run(sha, interval, Start(clock), events);
            var t := Finished(sha, interval, Step(sha, interval, s, Go(j, false)), j); var phase := s.jobs[j].phase;
            && (HashMatches(sha, t)
                <==> !phase.FirstHash? && !phase.FirstStore? && !phase.NeedStore? && !phase.NeedHash?)
            && (AllCompared(t) <==> !phase.NeedDiff? && (phase.NeedBase? ==> NewestText(s.stored) == ""))
  {
    ChainHolds(sha, interval, clock, events);
    var s := Run(sha, interval, Start(clock), events);
    FailureBreaks(sha, interval, s, j);
  }

  lemma {:induction false} FailureBreaks(sha: string -> string, interval: int, s: State, j: nat)
    requires Injective(sha) && Chain(sha, interval, s) && Lease(interval, s)
    requires j < |s.jobs| && Active(s.jobs[j]) && s.jobs[j].phase != Won && s.jobs[j].phase != Fetching
    ensures var t := Finished(sha, interval, Step(sha, interval, s, Go(j, false)), j); var phase := s.jobs[j].phase;
            && (HashMatches(sha, t)
                <==> !phase.FirstHash? && !phase.FirstStore? && !phase.NeedStore? && !phase.NeedHash?)
            && (AllCompared(t) <==> !phase.NeedDiff? && (phase.NeedBase? ==> NewestText(s.stored) == ""))
  {
    var phase, next := s.jobs[j].phase, Step(sha, interval, s, Go(j, false));
    assert InChain(sha, s, s.jobs[j]);
    ComparedOrNot(sha, s, j);
    if s.stored != [] {
      NewestIsLast(s.stored);
    }
    match phase
    case FirstHash(_) => FirstRunFinished(sha, interval, next, j);
    case FirstStore(_) => ComparingRunFinished(sha, interval, next, j);
    case NeedBase(_) => ComparisonFinishes(sha, interval, s, j, "");
    case NeedStore(text, base) =>
      ComparingRunFinished(sha, interval, next, j);
      LastChange(s, base, text);
    case NeedDiff(_, _) => ComparingRunFinished(sha, interval, next, j);
    case NeedHash(_) => ComparingRunFinished(sha, interval, next, j);
    case NeedStatus(_) =>
  }

  lemma LastChange(s: State, base: string, text: string)
    requires Uncompared(s, base, text)
    ensures Changes(s.fetched) == s.comparisons + [Comparison(base, text)]
  {
    var before := s.fetched[..|s.fetched| - 1];
    assert before + [text] == s.fetched;
    OneMoreFetched(before, text);
  }

  // A run that is to store its text and compare it with some base.
  lemma {:induction false} StoringRunFinished(sha: string -> string, interval: int, s: State, j: nat, v: Version)
    requires Increasing(s.stored) && j < |s.jobs| && s.jobs[j].phase.NeedStore?
    requires v == Version(s.jobs[j].at, s.jobs[j].phase.text) && Before(s.stored, v.at)
    ensures var t := Finished(sha, interval, s, j);
            && t.stored == s.stored + [v] && t.fetched == s.fetched && t.row.lastHash == Some(sha(v.text))
            && t.comparisons == s.comparisons + [Comparison(s.jobs[j].phase.base, v.text)]
            && NewestText(t.stored) == v.text
  {
    StoreLater(s.stored, v);
    ComparingRunFinished(sha, interval, Proceed(sha, interval, s, j), j);
    NewestIsLast(s.stored + [v]);
  }

  lemma {:induction false} ComparisonFinishes(sha: string -> string, interval: int, s: State, j: nat, base: string)
    requires Sound(interval, s) && Lease(interval, s) && j < |s.jobs| && s.jobs[j].phase.NeedBase?
    requires InChain(sha, s, s.jobs[j])
    ensures var text := s.jobs[j].phase.text;
            var t := Finished(sha, interval, WithJob(s, j, s.jobs[j].(phase := NeedStore(text, base))), j);
            HashMatches(sha, t) && (AllCompared(t) <==> base == Last(s.stored).text)
  {
    var text := s.jobs[j].phase.text;
    assert JobOk(s, s.jobs[j]) && InOrder(s, s.jobs[j]);
    StoringRunFinished(sha, interval, WithJob(s, j, s.jobs[j].(phase := NeedStore(text, base))), j,
                       Version(s.jobs[j].at, text));
    LastChange(s, Last(s.stored).text, text);
    SameEnd(s.comparisons, Comparison(base, text), Comparison(Last(s.stored).text, text));
  }

  lemma SameEnd<T>(s: seq<T>, x: T, y: T)
    ensures s + [x] == s + [y] <==> x == y
  {
    assert (s + [x])[|s|] == x && (s + [y])[|s|] == y;
  }

  // ---------------------------------------------------------------------
  // Which changes are lost for good
  // ---------------------------------------------------------------------

  ghost predicate Continuation(sha: string -> string, interval: int, s: State, events: seq<Event>) {
    AlwaysInTime(sha, interval, s, events) && AlwaysHarmless(sha, interval, s, events)
  }

  lemma {:induction false} ContinuationConcat(sha: string -> string, interval: int, s: State,
      a: seq<Event>, b: seq<Event>)
    ensures AlwaysInTime(sha, interval, s, a) && AlwaysInTime(sha, interval, Run(sha, interval, s, a), b)
       <==> AlwaysInTime(sha, interval, s, a + b)
    ensures AlwaysHarmless(sha, interval, s, a) && AlwaysHarmless(sha, interval, Run(sha, interval, s, a), b)
       <==> AlwaysHarmless(sha, interval, s, a + b)
    decreases |a|
  {
    if a == [] {
      assert a + b == b;
    } else {
      assert (a + b)[0] == a[0] && (a + b)[1..] == a[1..] + b;
      ContinuationConcat(sha, interval, Step(sha, interval, s, a[0]), a[1..], b);
    }
  }

  // No time passes while one job is started and goes on.
  lemma {:induction false} AtOnce(sha: string -> string, interval: int, s: State, k: nat, events: seq<Event>)
    requires interval >= 1
    requires forall j :: 0 <= j < |s.jobs| && (Active(s.jobs[j]) || j == k) ==> s.jobs[j].now == s.clock
    requires forall e :: e in events ==> e == Tick || e == Go(k, true) || (e.Answer? && e.j == k)
    ensures Continuation(sha, interval, s, events)
    decreases |events|
  {
    if events != [] {
      assert events[0] in events;
      AtOnce(sha, interval, Step(sha, interval, s, events[0]), k, events[1..]);
    }
  }

  // The next comparison will be with this text.
  ghost predicate NextBaseIs(s: State, base: string) {
    && s.stored != [] && s.row.lastHash.Some?
    && (forall j :: 0 <= j < |s.jobs| && Active(s.jobs[j]) ==> NotFirst(s.jobs[j].phase))
    && (forall j :: 0 <= j < |s.jobs| && Active(s.jobs[j]) && WithBase(s.jobs[j].phase) ==>
          s.jobs[j].phase.base == base)
    && ((forall j :: 0 <= j < |s.jobs| && Active(s.jobs[j]) ==> !WithBase(s.jobs[j].phase)) ==>
          Last(s.stored).text == base)
  }

  predicate NotFirst(phase: Phase) {
    !phase.FirstHash? && !phase.FirstStore?
  }

  predicate WithBase(phase: Phase) {
    phase.NeedStore? || phase.NeedDiff?
  }

  // The n-th change has been or is going to be compared with another text.
  ghost predicate Astray(s: State, n: nat, base: string) {
    && n < |Changes(s.fetched)| && Changes(s.fetched)[n].base != base
    && if n < |s.comparisons| then s.comparisons[n].base == base else |s.comparisons| == n && NextBaseIs(s, base)
  }

  lemma StepOnlyAppends(sha: string -> string, interval: int, s: State, e: Event, n: nat)
    ensures s.comparisons <= Step(sha, interval, s, e).comparisons
    ensures n < |Changes(s.fetched)| ==>
              var t := Step(sha, interval, s, e);
              n < |Changes(t.fetched)| && Changes(t.fetched)[n] == Changes(s.fetched)[n]
  {
    if e.Answer? {
      if e.j < |s.jobs| && n < |Changes(s.fetched)| {
        AnswerOnlyAppends(sha, s, e.j, e.reply, n);
      }
    } else {
      OthersFetchNothing(sha, interval, s, e);
    }
  }

  lemma AnswerOnlyAppends(sha: string -> string, s: State, j: nat, reply: Reply, n: nat)
    requires n < |Changes(s.fetched)| && j < |s.jobs|
    ensures var t := Answered(sha, s, j, reply);
            n < |Changes(t.fetched)| && Changes(t.fetched)[n] == Changes(s.fetched)[n]
  {
    if reply.Text? {
      OneMoreFetched(s.fetched, reply.text);
    }
  }

  lemma OthersFetchNothing(sha: string -> string, interval: int, s: State, e: Event)
    requires !e.Answer?
    ensures Step(sha, interval, s, e).fetched == s.fetched && s.comparisons <= Step(sha, interval, s, e).comparisons
  {
  }

  // The one job under way moves on, and so does the next base.
  lemma ActiveKeepsBase(s: State, t: State, j: nat, base: string)
    requires AtMostOneActive(s) && NextBaseIs(s, base) && j < |s.jobs| == |t.jobs| && Active(s.jobs[j])
    requires t.jobs == s.jobs[j := t.jobs[j]] && t.stored != [] && t.row.lastHash.Some?
    requires Active(t.jobs[j]) ==> NotFirst(t.jobs[j].phase)
    requires if Active(t.jobs[j]) && WithBase(t.jobs[j].phase) then t.jobs[j].phase.base == base
             else Last(t.stored).text == base
    ensures NextBaseIs(t, base)
  {
    assert forall i :: 0 <= i < |t.jobs| && Active(t.jobs[i]) ==> i == j;
  }

  lemma ProceedKeepsAstray(sha: string -> string, interval: int, s: State, j: nat, n: nat, base: string)
    requires Sound(interval, s) && Lease(interval, s) && Astray(s, n, base) && |s.comparisons| == n
    requires j < |s.jobs| && Active(s.jobs[j]) && s.jobs[j].phase != Fetching
    ensures Astray(Proceed(sha, interval, s, j), n, base)
  {
    var t := Proceed(sha, interval, s, j);
    assert forall i :: 0 <= i < |s.jobs| && Active(s.jobs[i]) ==> i == j;
    if s.jobs[j].phase.NeedStore? {
      StoreIsInOrder(interval, s, j, s.jobs[j].phase.text);
    } else if s.jobs[j].phase.NeedBase? {
      NewestIsLast(s.stored);
    }
    if !s.jobs[j].phase.NeedDiff? {
      ActiveKeepsBase(s, t, j, base);
    }
  }

  lemma MissKeepsAstray(sha: string -> string, interval: int, s: State, j: nat, n: nat, base: string)
    requires Sound(interval, s) && Lease(interval, s) && Astray(s, n, base) && |s.comparisons| == n
    requires j < |s.jobs| && Active(s.jobs[j]) && Harmless(s, Go(j, false))
    ensures Astray(Missed(s, j), n, base)
  {
    if s.jobs[j].phase.NeedBase? || s.jobs[j].phase == Won {
      assert Missed(s, j) == Proceed(sha, interval, s, j);
      ProceedKeepsAstray(sha, interval, s, j, n, base);
    } else {
      assert forall i :: 0 <= i < |s.jobs| && Active(s.jobs[i]) ==> i == j;
      ActiveKeepsBase(s, Missed(s, j), j, base);
    }
  }

  lemma FaultKeepsAstray(sha: string -> string, interval: int, s: State, e: Event, j: nat,
      n: nat, base: string)
    requires Sound(interval, s) && Lease(interval, s) && Astray(s, n, base) && |s.comparisons| == n && Harmless(s, e)
    requires j < |s.jobs| && Active(s.jobs[j]) && (e == Crash(j) || e == Go(j, false) || (e.Answer? && e.j == j))
    ensures Astray(Step(sha, interval, s, e), n, base)
  {
    if e.Go? {
      MissKeepsAstray(sha, interval, s, j, n, base);
    } else {
      assert forall i :: 0 <= i < |s.jobs| && Active(s.jobs[i]) ==> i == j;
      assert HashIsCurrent(interval, s, s.jobs[j]);
      StepOnlyAppends(sha, interval, s, e, n);
      ActiveKeepsBase(s, Step(sha, interval, s, e), j, base);
    }
  }

  lemma QuietKeepsAstray(s: State, t: State, n: nat, base: string)
    requires Astray(s, n, base) && t.stored == s.stored && t.row.lastHash == s.row.lastHash
    requires t.fetched == s.fetched && t.comparisons == s.comparisons && |s.jobs| <= |t.jobs|
    requires forall i :: 0 <= i < |s.jobs| && Active(s.jobs[i]) ==> t.jobs[i] == s.jobs[i]
    requires forall i :: 0 <= i < |t.jobs| && Active(t.jobs[i]) ==>
               t.jobs[i].phase == Won || (i < |s.jobs| && t.jobs[i] == s.jobs[i])
    ensures Astray(t, n, base)
  {
    if (forall i :: 0 <= i < |t.jobs| && Active(t.jobs[i]) ==> !WithBase(t.jobs[i].phase)) {
      assert forall i :: 0 <= i < |s.jobs| && Active(s.jobs[i]) ==>
               t.jobs[i] == s.jobs[i] && !WithBase(s.jobs[i].phase);
    }
  }

  lemma IdleKeepsAstray(sha: string -> string, interval: int, s: State, e: Event, n: nat, base: string)
    requires Astray(s, n, base) && (e.Advance? || e.Tick? || e.j >= |s.jobs| || !Active(s.jobs[e.j]))
    ensures Astray(Step(sha, interval, s, e), n, base)
  {
    QuietKeepsAstray(s, Step(sha, interval, s, e), n, base);
  }

  lemma StepKeepsAstray(sha: string -> string, interval: int, s: State, e: Event, n: nat, base: string)
    requires Sound(interval, s) && Lease(interval, s) && Astray(s, n, base) && Harmless(s, e)
    ensures Astray(Step(sha, interval, s, e), n, base)
  {
    StepOnlyAppends(sha, interval, s, e, n);
    if |s.comparisons| == n {
      if e.Advance? || e.Tick? || e.j >= |s.jobs| || !Active(s.jobs[e.j]) {
        IdleKeepsAstray(sha, interval, s, e, n, base);
      } else if e.Go? && e.ok {
        if s.jobs[e.j].phase != Fetching {
          ProceedKeepsAstray(sha, interval, s, e.j, n, base);
        }
      } else {
        FaultKeepsAstray(sha, interval, s, e, e.j, n, base);
      }
    }
  }

  lemma {:induction false} StaysAstray(sha: string -> string, interval: int, s: State, events: seq<Event>,
      n: nat, base: string)
    requires interval >= 1 && Sound(interval, s) && Lease(interval, s) && Astray(s, n, base)
    requires Continuation(sha, interval, s, events)
    ensures !AllCompared(Run(sha, interval, s, events))
    decreases |events|
  {
    if events != [] {
      StepKeepsLease(sha, interval, s, events[0]);
      StepKeepsSound(sha, interval, s, events[0]);
      StepKeepsAstray(sha, interval, s, events[0], n, base);
      StaysAstray(sha, interval, Step(sha, interval, s, events[0]), events[1..], n, base);
    }
  }

  // The next run, from its claim to the answer to its fetch.
  lemma NextRunFetches(sha: string -> string, interval: int, s: State, text: string)
    returns (events: seq<Event>, t: State, k: nat)
    requires interval >= 1 && Lease(interval, s) && NoneActive(s)
    ensures Continuation(sha, interval, s, events) && t == Run(sha, interval, s, events) && InTime(interval, t)
    ensures k < |t.jobs| && t.jobs[k].at == t.clock == s.clock + interval * MINUTE
    ensures k == |s.jobs| == |t.jobs| - 1 && t.jobs[..k] == s.jobs
    ensures t.stored == s.stored && t.row.lastHash == s.row.lastHash && t.comparisons == s.comparisons
    ensures t.fetched == s.fetched + [text]
    ensures t.jobs[k].phase == if s.row.lastHash == Some(sha(text)) then NeedStatus(Ok)
                               else if s.row.lastHash == None then FirstHash(text) else NeedBase(text)
  {
    k := |s.jobs|;
    var wait := [Advance(interval * MINUTE)];
    var s1 := s.(clock := s.clock + interval * MINUTE);
    assert wait[1..] == [];
    assert Run(sha, interval, s, wait) == s1;
    BecomesDueAgain(sha, interval, s1);
    var begin := [Go(k, true), Answer(k, Text(text))];
    var s2 := Run(sha, interval, s1, Undisturbed(s1));
    RunThen(sha, interval, s2, [], Go(k, true));
    RunThen(sha, interval, s2, [Go(k, true)], Answer(k, Text(text)));
    assert [] + [Go(k, true)] == [Go(k, true)] && [Go(k, true)] + [Answer(k, Text(text))] == begin;
    AtOnce(sha, interval, s1, k, Undisturbed(s1) + begin);
    RunConcat(sha, interval, s1, Undisturbed(s1), begin);
    ContinuationConcat(sha, interval, s, wait, Undisturbed(s1) + begin);
    RunConcat(sha, interval, s, wait, Undisturbed(s1) + begin);
    events := wait + (Undisturbed(s1) + begin);
    t := Run(sha, interval, s, events);
    assert events + [] == events;
    ContinuationConcat(sha, interval, s, events, []);
  }

  // A fault of a run under way after which the change can still be compared.
  predicate Recoverable(s: State, j: nat, e: Event)
    requires j < |s.jobs|
  {
    !s.jobs[j].phase.NeedDiff? && (e.Go? && s.jobs[j].phase.NeedBase? ==> NewestText(s.stored) == "")
  }

  // After a fault of a run under way, the comparisons can come to cover all changes
  // again by further undamaged running, for instance when the next fetch gives the
  // same text, exactly unless the comparison itself was lost or made with no base:
  // then the change is never compared.
  lemma {:induction false} ChangeIsLostExactly(sha: string -> string, interval: int, clock: int,
      events: seq<Event>, j: nat, e: Event)
    requires Undamaged(sha, interval, clock, events) && (e == Crash(j) || e == Go(j, false))
    requires var s := Run(sha, interval, Start(clock), events); j < |s.jobs| && Active(s.jobs[j])
    ensures var s := Run(sha, interval, Start(clock), events); var t := Step(sha, interval, s, e);
            && j < |s.jobs|
            && (Recoverable(s, j, e)
                <==> exists later :: Continuation(sha, interval, t, later) && AllCompared(Run(sha, interval, t, later)))
  {
    ChainHolds(sha, interval, clock, events);
    var s := Run(sha, interval, Start(clock), events);
    var t := Step(sha, interval, s, e);
    StepKeepsLease(sha, interval, s, e);
    StepKeepsSound(sha, interval, s, e);
    assert InChain(sha, s, s.jobs[j]);
    if Recoverable(s, j, e) {
      var later := CatchesUp(sha, interval, s, j, e);
    } else {
      var base := LosesTrack(sha, interval, s, j, e);
      forall later | Continuation(sha, interval, t, later) ensures !AllCompared(Run(sha, interval, t, later)) {
        StaysAstray(sha, interval, t, later, |s.comparisons|, base);
      }
    }
  }

  lemma LosesTrack(sha: string -> string, interval: int, s: State, j: nat, e: Event)
    returns (base: string)
    requires Sound(interval, s) && Lease(interval, s) && j < |s.jobs| && Active(s.jobs[j]) && InChain(sha, s, s.jobs[j])
    requires (e == Crash(j) || e == Go(j, false)) && !Recoverable(s, j, e)
    ensures Astray(Step(sha, interval, s, e), |s.comparisons|, base)
  {
    var phase, t := s.jobs[j].phase, Step(sha, interval, s, e);
    assert forall i :: 0 <= i < |t.jobs| && Active(t.jobs[i]) ==> i == j;
    if phase.NeedDiff? {
      LastChange(s, phase.base, phase.text);
      base := phase.text;
    } else {
      NewestIsLast(s.stored);
      LastChange(s, Last(s.stored).text, phase.text);
      base := "";
      assert Active(t.jobs[j]) && WithBase(t.jobs[j].phase);
    }
  }

  lemma CatchesUp(sha: string -> string, interval: int, s: State, j: nat, e: Event)
    returns (later: seq<Event>)
    requires interval >= 1 && Injective(sha) && Chain(sha, interval, s) && Lease(interval, s) && InTime(interval, s)
    requires j < |s.jobs| && Active(s.jobs[j]) && (e == Crash(j) || e == Go(j, false)) && Recoverable(s, j, e)
    ensures var t := Step(sha, interval, s, e);
            Continuation(sha, interval, t, later) && AllCompared(Run(sha, interval, t, later))
  {
    var t, phase := Step(sha, interval, s, e), s.jobs[j].phase;
    assert InChain(sha, s, s.jobs[j]);
    assert InTime(interval, t);
    ComparedOrNot(sha, s, j);
    if !phase.NeedBase? && !phase.NeedStore? {
      later := [];
    } else if e.Go? {
      FailureBreaks(sha, interval, s, j);
      later := FinishedIsARun(sha, interval, t, j);
    } else {
      later := NextRunCompares(sha, interval, s, j);
    }
  }

  lemma {:induction false} SecondFetchCompares(sha: string -> string, interval: int, s: State, k: nat)
    requires k < |s.jobs| && s.jobs[k].phase.NeedBase? && s.stored != []
    requires Increasing(s.stored) && Before(s.stored, s.jobs[k].at)
    ensures var t := Finished(sha, interval, s, k);
            && t.comparisons == s.comparisons + [Comparison(Last(s.stored).text, s.jobs[k].phase.text)]
            && t.fetched == s.fetched
  {
    NewestIsLast(s.stored);
    var next := Proceed(sha, interval, s, k);
    assert Finished(sha, interval, s, k) == Finished(sha, interval, next, k);
    StoringRunFinished(sha, interval, next, k, Version(s.jobs[k].at, s.jobs[k].phase.text));
  }

  // The run that went down before it compared is made good by the next one.
  lemma NextRunCompares(sha: string -> string, interval: int, s: State, j: nat)
    returns (later: seq<Event>)
    requires interval >= 1 && Injective(sha) && Chain(sha, interval, s) && Lease(interval, s) && InTime(interval, s)
    requires j < |s.jobs| && (s.jobs[j].phase.NeedBase? || s.jobs[j].phase.NeedStore?)
    ensures var t := Step(sha, interval, s, Crash(j));
            Continuation(sha, interval, t, later) && AllCompared(Run(sha, interval, t, later))
  {
    var t, text := Step(sha, interval, s, Crash(j)), s.jobs[j].phase.text;
    assert InChain(sha, s, s.jobs[j]) && JobOk(s, s.jobs[j]) && InOrder(s, s.jobs[j]);
    StepKeepsLease(sha, interval, s, Crash(j));
    assert forall i :: 0 <= i < |s.jobs| && Active(s.jobs[i]) ==> i == j;
    var a, u, k := NextRunFetches(sha, interval, t, text);
    LastChange(s, Last(s.stored).text, text);
    OneMoreFetched(s.fetched, text);
    SecondFetchCompares(sha, interval, u, k);
    var b := FinishedIsARun(sha, interval, u, k);
    ContinuationConcat(sha, interval, t, a, b);
    RunConcat(sha, interval, t, a, b);
    later := a + b;
  }

  // ---------------------------------------------------------------------
  // The breaking points are reached
  // ---------------------------------------------------------------------

  lemma StartIsSound(interval: int, clock: int)
    ensures Sound(interval, Start(clock)) && Lease(interval, Start(clock)) && NoneActive(Start(clock))
  {
  }

  // The first run, up to the text of its fetch.
  lemma FirstFetch(sha: string -> string, interval: int, text: string)
    returns (events: seq<Event>, s: State)
    requires interval >= 1
    ensures Continuation(sha, interval, Start(0), events) && s == Run(sha, interval, Start(0), events)
    ensures InTime(interval, s) && |s.jobs| == 1 && s.jobs[0].phase == FirstHash(text) && s.jobs[0].at == s.clock
    ensures s.stored == [] && s.fetched == [text]
  {
    var k;
    StartIsSound(interval, 0);
    events, s, k := NextRunFetches(sha, interval, Start(0), text);
    assert [] + [text] == [text];
  }

  // A first run that goes down between its two writes leaves a hash without a spec.
  lemma CrashLeavesHashWithoutSpec(sha: string -> string, interval: int, text: string)
    requires interval >= 1
    ensures exists events :: var s := Run(sha, interval, Start(0), events);
              && AlwaysInTime(sha, interval, Start(0), events) && NoneActive(s)
              && s.fetched == [text] && s.row.lastHash == Some(sha(text)) && s.stored == []
  {
    var a, s := FirstFetch(sha, interval, text);
    var b := [Go(0, true), Crash(0)];
    RunThen(sha, interval, s, [], Go(0, true));
    RunThen(sha, interval, s, [Go(0, true)], Crash(0));
    assert [] + [Go(0, true)] == [Go(0, true)] && [Go(0, true)] + [Crash(0)] == b;
    assert b[1..] == [Crash(0)] && b[1..][1..] == [];
    assert AlwaysInTime(sha, interval, s, b);
    ContinuationConcat(sha, interval, Start(0), a, b);
    RunConcat(sha, interval, Start(0), a, b);
    assert AlwaysInTime(sha, interval, Start(0), a + b);
  }

  // For any two texts, an undamaged run is about to compare them, and a crash there
  // loses the change for good.
  lemma ChangeCanBeLost(sha: string -> string, interval: int, a: string, b: string)
    requires interval >= 1 && Injective(sha) && a != b
    ensures exists events, j: nat :: var s := Run(sha, interval, Start(0), events);
              && Undamaged(sha, interval, 0, events) && j < |s.jobs| && s.jobs[j].phase == NeedDiff(b, a)
              && forall later :: Continuation(sha, interval, Step(sha, interval, s, Crash(j)), later)
                   ==> !AllCompared(Run(sha, interval, Step(sha, interval, s, Crash(j)), later))
  {
    var e1, s1 := FirstFetch(sha, interval, a);
    var e2 := FinishedIsARun(sha, interval, s1, 0);
    ContinuationConcat(sha, interval, Start(0), e1, e2);
    RunConcat(sha, interval, Start(0), e1, e2);
    var events, s := SecondRunCompares(sha, interval, e1 + e2, s1, a, b);
    ChangeIsLostExactly(sha, interval, 0, events, 1, Crash(1));
  }

  lemma {:induction false} FirstRunLeaves(sha: string -> string, interval: int, s: State, text: string)
    requires interval >= 1 && InTime(interval, s) && s.stored == []
    requires |s.jobs| == 1 && s.jobs[0].phase == FirstHash(text)
    ensures var t := Finished(sha, interval, s, 0);
            && |t.jobs| == 1 && NoneActive(t) && t.row.lastHash == Some(sha(text))
            && t.stored == [Version(s.jobs[0].at, text)]
  {
    var next := Proceed(sha, interval, s, 0);
    assert Finished(sha, interval, s, 0) == Finished(sha, interval, next, 0);
    FirstRunFinished(sha, interval, next, 0);
    var _ := FinishedIsARun(sha, interval, s, 0);
  }

  // Reads the base and stores the new text.
  lemma {:induction false} TwoStatements(sha: string -> string, interval: int, s: State, j: nat, text: string,
      v: Version)
    requires InTime(interval, s) && j < |s.jobs| && s.jobs[j].phase == NeedBase(text) && s.stored == [v]
    ensures var t := Run(sha, interval, s, [Go(j, true)] + [Go(j, true)]);
            |t.jobs| == |s.jobs| && t.jobs[j].phase == NeedDiff(text, v.text)
    ensures Continuation(sha, interval, s, [Go(j, true)] + [Go(j, true)])
  {
    var e := [Go(j, true)];
    assert e[1..] == [];
    var s1 := Step(sha, interval, s, Go(j, true));
    assert Run(sha, interval, s, e) == s1;
    RunThen(sha, interval, s, e, Go(j, true));
    assert Continuation(sha, interval, s, e) && Continuation(sha, interval, s1, e);
    ContinuationConcat(sha, interval, s, e, e);
  }

  lemma SecondRunCompares(sha: string -> string, interval: int, first: seq<Event>, s1: State,
      a: string, b: string)
    returns (events: seq<Event>, s: State)
    requires interval >= 1 && Injective(sha) && a != b
    requires Continuation(sha, interval, Start(0), first)
    requires InTime(interval, s1) && |s1.jobs| == 1 && s1.jobs[0].phase == FirstHash(a) && s1.stored == []
    requires Run(sha, interval, Start(0), first) == Finished(sha, interval, s1, 0)
    ensures Undamaged(sha, interval, 0, events) && s == Run(sha, interval, Start(0), events)
    ensures |s.jobs| == 2 && s.jobs[1].phase == NeedDiff(b, a)
  {
    RunKeepsLease(sha, interval, Start(0), first);
    FirstRunLeaves(sha, interval, s1, a);
    var second, s3, k := NextRunFetches(sha, interval, Run(sha, interval, Start(0), first), b);
    ContinuationConcat(sha, interval, Start(0), first, second);
    RunConcat(sha, interval, Start(0), first, second);
    TwoStatements(sha, interval, s3, 1, b, Version(s1.jobs[0].at, a));
    ContinuationConcat(sha, interval, Start(0), first + second, [Go(1, true)] + [Go(1, true)]);
    RunConcat(sha, interval, Start(0), first + second, [Go(1, true)] + [Go(1, true)]);
    events := first + second + ([Go(1, true)] + [Go(1, true)]);
    s := Run(sha, interval, Start(0), events);
  }
}
