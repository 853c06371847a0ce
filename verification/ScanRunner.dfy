/**
 * The scheduler tick and the scan it starts as code (radar-api/src/scans.rs). `ok`
 * says of every statement whether it succeeds; apart from the first read and the
 * claim, the code goes on in either case.
 */
module ScanRunner {
  import opened Options
  import opened ScanLease

  // ---------------------------------------------------------------------
  // The scheduler tick
  // ---------------------------------------------------------------------

  // What an undisturbed tick does to one row of the machine.
  lemma {:induction false} TickOnRow(sha: string -> string, interval: int, s: State, readOk: bool, ok: bool)
    ensures var j := |s.jobs|; var due := readOk && ok && IsDue(s.row.lastRunAt, s.clock, interval);
            var t := Run(sha, interval, s, [Tick, Go(j, readOk), Go(j, ok)]);
            && |t.jobs| == j + 1 && (t.jobs[j].phase == Won <==> due) && t.stored == s.stored
            && t.row == if due then Claimed(s.row, s.row.lastRunAt, s.clock) else s.row
  {
    var j := |s.jobs|;
    RunOf3(sha, interval, s, Tick, Go(j, readOk), Go(j, ok));
    var s2 := Step(sha, interval, Step(sha, interval, s, Tick), Go(j, readOk));
    var seen := if readOk then Job(s.clock, s.clock, s.row.lastHash, Seen(s.row.lastRunAt))
                else Job(s.clock, s.clock, None, Gone);
    assert s2 == s.(jobs := s.jobs + [seen]);
  }

  // Every due scan is claimed and no other; on each row the tick does what it does
  // in the machine, whatever state `states` says that row's machine is in.
  method RunDueScans(scans: seq<ScanTable>, intervals: seq<int>, now: int, readOk: bool, ok: nat -> bool,
                     ghost sha: string -> string, ghost states: seq<State>)
    returns (won: seq<bool>)
    requires |intervals| == |scans| == |states|
    requires forall i, j :: 0 <= i < j < |scans| ==> scans[i] != scans[j]
    requires forall i :: 0 <= i < |scans| ==>
               states[i].row == scans[i].row && states[i].stored == scans[i].stored && states[i].clock == now
    modifies set i | 0 <= i < |scans| :: scans[i]
    ensures |won| == |scans|
    ensures forall i :: 0 <= i < |scans| ==>
              won[i] == (readOk && ok(i) && IsDue(old(scans[i].row.lastRunAt), now, intervals[i]))
    ensures forall i :: 0 <= i < |scans| ==>
              var j := |states[i].jobs|;
              var t := Run(sha, intervals[i], states[i], [Tick, Go(j, readOk), Go(j, ok(i))]);
              && scans[i].row == t.row && scans[i].stored == t.stored
              && |t.jobs| == j + 1 && (won[i] <==> t.jobs[j].phase == Won)
  {
    won := [];
    for i := 0 to |scans|
      invariant |won| == i
      invariant forall k :: 0 <= k < i ==>
                  && won[k] == (readOk && ok(k) && IsDue(states[k].row.lastRunAt, now, intervals[k]))
                  && scans[k].row == (if won[k] then Claimed(states[k].row, states[k].row.lastRunAt, now)
                                      else states[k].row)
      invariant forall k :: i <= k < |scans| ==> scans[k].row == states[k].row
      invariant forall k :: 0 <= k < |scans| ==> scans[k].stored == states[k].stored
    {
      var claimed := false;
      if readOk && IsDue(scans[i].row.lastRunAt, now, intervals[i]) && ok(i) {
        claimed := scans[i].ClaimScan(scans[i].row.lastRunAt, now);
      }
      won := won + [claimed];
    }
    forall i | 0 <= i < |scans|
      ensures var j := |states[i].jobs|;
              var t := Run(sha, intervals[i], states[i], [Tick, Go(j, readOk), Go(j, ok(i))]);
              && scans[i].row == t.row && scans[i].stored == t.stored
              && |t.jobs| == j + 1 && (won[i] <==> t.jobs[j].phase == Won)
    {
      TickOnRow(sha, intervals[i], states[i], readOk, ok(i));
    }
  }

  // ---------------------------------------------------------------------
  // The scan
  // ---------------------------------------------------------------------

  function Rank(phase: Phase): nat {
    match phase
    case Won => 7
    case Fetching => 6
    case NeedBase(_) => 5
    case NeedStore(_, _) => 4
    case NeedDiff(_, _) | FirstHash(_) => 3
    case NeedHash(_) | FirstStore(_) => 2
    case NeedStatus(_) => 1
    case _ => 0
  }

  // The next event of a claimed run that nobody interferes with.
  function NextEvent(s: State, j: nat, reply: Reply, ok: nat -> bool, t: nat): Event
    requires j < |s.jobs|
  {
    if s.jobs[j].phase == Fetching then Answer(j, reply) else Go(j, ok(t))
  }

  // Where such a run ends from its `t`-th step on.
  function Driven(sha: string -> string, interval: int, s: State, j: nat, reply: Reply, ok: nat -> bool, t: nat): State
    requires j < |s.jobs|
    decreases Rank(s.jobs[j].phase)
  {
    if Rank(s.jobs[j].phase) == 0 then s
    else Driven(sha, interval, Step(sha, interval, s, NextEvent(s, j, reply, ok, t)), j, reply, ok, t + 1)
  }

  // It is one of the runs of the machine, and ends the job.
  lemma {:induction false} DrivenIsARun(sha: string -> string, interval: int, s: State, j: nat, reply: Reply,
      ok: nat -> bool, t: nat)
    returns (events: seq<Event>)
    requires j < |s.jobs| && Active(s.jobs[j])
    ensures var end := Driven(sha, interval, s, j, reply, ok, t);
            && Run(sha, interval, s, events) == end
            && |end.jobs| == |s.jobs| && end.jobs == s.jobs[j := end.jobs[j]] && end.jobs[j].phase == Gone
    decreases Rank(s.jobs[j].phase)
  {
    var e := NextEvent(s, j, reply, ok, t);
    var next := Step(sha, interval, s, e);
    if Active(next.jobs[j]) {
      var rest := DrivenIsARun(sha, interval, next, j, reply, ok, t + 1);
      events := [e] + rest;
      assert events[1..] == rest;
    } else {
      assert Driven(sha, interval, next, j, reply, ok, t + 1) == next;
      events := [e];
      assert events[1..] == [];
    }
  }

  // What such a run leaves behind if all its statements succeed and it has read the hash
  // that is in the row: nothing but a status if the fetch is blocked or fails; else the
  // hash of the text, and if that is new, the text itself and, except for a first one, its
  // comparison with the newest text before.
  lemma {:induction false} DrivenLeaves(sha: string -> string, interval: int, s: State, j: nat, reply: Reply,
      ok: nat -> bool, t: nat)
    requires j < |s.jobs| && s.jobs[j].phase == Won && s.jobs[j].seenHash == s.row.lastHash
    requires (forall n :: ok(n)) && forall v :: v in s.stored ==> v.at != s.clock
    ensures var end := Driven(sha, interval, s, j, reply, ok, t);
            match reply
            case Blocked => && end.row == Row(Some(s.clock), Skipped, s.row.lastHash)
                            && end.stored == s.stored && end.comparisons == s.comparisons
            case Broken => && end.row == Row(Some(s.clock), Failed, s.row.lastHash)
                           && end.stored == s.stored && end.comparisons == s.comparisons
            case Text(text) =>
              && end.row == Row(Some(s.clock), Ok, Some(sha(text)))
              && if s.row.lastHash == Some(sha(text)) then end.stored == s.stored && end.comparisons == s.comparisons
                 else && end.stored == s.stored + [Version(s.clock, text)]
                      && end.comparisons
                         == s.comparisons
                            + (if s.row.lastHash == None then [] else [Comparison(NewestText(s.stored), text)])
  {
    var s1 := DriveOnce(sha, interval, s, j, reply, ok, t);
    var s2 := DriveOnce(sha, interval, s1, j, reply, ok, t + 1);
    if s2.jobs[j].phase.NeedStatus? {
      LastStep(sha, interval, s2, j, reply, ok, t + 2);
    } else if s2.jobs[j].phase.FirstHash? {
      FirstRunLeaves(sha, interval, s2, j, reply, ok, t + 2);
    } else {
      ComparingRunLeaves(sha, interval, s2, j, reply, ok, t + 2);
    }
  }

  lemma {:induction false} FirstRunLeaves(sha: string -> string, interval: int, s: State, j: nat, reply: Reply,
      ok: nat -> bool, t: nat)
    requires j < |s.jobs| && s.jobs[j].phase.FirstHash?
    requires (forall n :: ok(n)) && forall v :: v in s.stored ==> v.at != s.jobs[j].at
    ensures var end, text := Driven(sha, interval, s, j, reply, ok, t), s.jobs[j].phase.text;
            && end.row == Row(Some(s.jobs[j].at), Ok, Some(sha(text)))
            && end.stored == s.stored + [Version(s.jobs[j].at, text)] && end.comparisons == s.comparisons
  {
    var s1 := DriveOnce(sha, interval, s, j, reply, ok, t);
    var s2 := DriveOnce(sha, interval, s1, j, reply, ok, t + 1);
    LastStep(sha, interval, s2, j, reply, ok, t + 2);
  }

  lemma {:induction false} ComparingRunLeaves(sha: string -> string, interval: int, s: State, j: nat, reply: Reply,
      ok: nat -> bool, t: nat)
    requires j < |s.jobs| && s.jobs[j].phase.NeedBase?
    requires (forall n :: ok(n)) && forall v :: v in s.stored ==> v.at != s.jobs[j].at
    ensures var end, text := Driven(sha, interval, s, j, reply, ok, t), s.jobs[j].phase.text;
            && end.row == Row(Some(s.jobs[j].at), Ok, Some(sha(text)))
            && end.stored == s.stored + [Version(s.jobs[j].at, text)]
            && end.comparisons == s.comparisons + [Comparison(NewestText(s.stored), text)]
  {
    var s1 := DriveOnce(sha, interval, s, j, reply, ok, t);
    var s2 := DriveOnce(sha, interval, s1, j, reply, ok, t + 1);
    var s3 := DriveOnce(sha, interval, s2, j, reply, ok, t + 2);
    var s4 := DriveOnce(sha, interval, s3, j, reply, ok, t + 3);
    LastStep(sha, interval, s4, j, reply, ok, t + 4);
  }

  function Outcome(reply: Reply): RunStatus {
    match reply
    case Blocked => Skipped
    case Broken => Failed
    case Text(_) => Ok
  }

  // The run has come as far as this with that outcome of its fetch.
  ghost predicate Expects(phase: Phase, reply: Reply) {
    match phase
    case Won | Fetching | Gone => true
    case NeedStatus(status) => status == Outcome(reply)
    case Ticked | Seen(_) => false
    case _ => reply.Text?
  }

  // Whatever statements of it fail, a run writes the outcome of its fetch for a status or
  // leaves the one there was.
  lemma {:induction false} StatusIsOutcome(sha: string -> string, interval: int, s: State, j: nat, reply: Reply,
      ok: nat -> bool, t: nat)
    requires j < |s.jobs| && Expects(s.jobs[j].phase, reply)
    ensures var end := Driven(sha, interval, s, j, reply, ok, t);
            end.row.status == s.row.status || end.row.status == Outcome(reply)
    decreases Rank(s.jobs[j].phase)
  {
    if Rank(s.jobs[j].phase) > 0 {
      StatusIsOutcome(sha, interval, Step(sha, interval, s, NextEvent(s, j, reply, ok, t)), j, reply, ok, t + 1);
    }
  }

  lemma DriveOnce(sha: string -> string, interval: int, s: State, j: nat, reply: Reply, ok: nat -> bool, t: nat)
    returns (next: State)
    requires j < |s.jobs| && Active(s.jobs[j]) && forall n :: ok(n)
    ensures next == (if s.jobs[j].phase == Fetching then Answered(sha, s, j, reply) else Proceed(sha, interval, s, j))
    ensures |next.jobs| == |s.jobs| && Driven(sha, interval, s, j, reply, ok, t)
         == Driven(sha, interval, next, j, reply, ok, t + 1)
  {
    next := Step(sha, interval, s, NextEvent(s, j, reply, ok, t));
  }

  lemma {:induction false} LastStep(sha: string -> string, interval: int, s: State, j: nat, reply: Reply,
      ok: nat -> bool, t: nat)
    requires j < |s.jobs| && s.jobs[j].phase.NeedStatus? && forall n :: ok(n)
    ensures var end := Driven(sha, interval, s, j, reply, ok, t);
            && end.row == Row(Some(s.jobs[j].at), s.jobs[j].phase.status, s.row.lastHash)
            && end.stored == s.stored && end.comparisons == s.comparisons
  {
    var next := DriveOnce(sha, interval, s, j, reply, ok, t);
  }

  // A state whose row and versions are those of the table.
  ghost predicate Shows(s: State, table: ScanTable)
    reads table
  {
    s.row == table.row && s.stored == table.stored
  }

  lemma OneStep(sha: string -> string, interval: int, s: State, j: nat, reply: Reply,
      ok: nat -> bool, t: nat, next: State)
    requires j < |s.jobs| && Rank(s.jobs[j].phase) > 0
    requires next == Step(sha, interval, s, NextEvent(s, j, reply, ok, t))
    ensures |next.jobs| == |s.jobs|
    ensures Driven(sha, interval, s, j, reply, ok, t) == Driven(sha, interval, next, j, reply, ok, t + 1)
  {
  }

  // A claimed run with any answer of the target and any failing statements leaves
  // the tables, and has compared, as the machine says.
  method ExecuteScan(sha: string -> string, table: ScanTable, at: int, seenHash: Option<string>, reply: Reply,
                     ok: nat -> bool, ghost interval: int, ghost s: State, ghost j: nat)
    returns (compared: Option<Comparison>)
    requires j < |s.jobs| && s.jobs[j].phase == Won && s.jobs[j].seenHash == seenHash && s.clock == at
    requires Shows(s, table)
    modifies table
    ensures var end := Driven(sha, interval, s, j, reply, ok, 0);
            && Shows(end, table)
            && end.comparisons == if compared.Some? then s.comparisons + [compared.value] else s.comparisons
  {
    ghost var s1 := Step(sha, interval, s, Go(j, ok(0)));
    OneStep(sha, interval, s, j, reply, ok, 0, s1);
    ghost var s2 := Step(sha, interval, s1, Answer(j, reply));
    OneStep(sha, interval, s1, j, reply, ok, 1, s2);
    compared := None;
    match reply {
      case Blocked => FinishRun(sha, table, at, Skipped, reply, ok, 2, interval, s2, j);
      case Broken => FinishRun(sha, table, at, Failed, reply, ok, 2, interval, s2, j);
      case Text(text) =>
        var hash := sha(text);
        if seenHash == Some(hash) {
          FinishRun(sha, table, at, Ok, reply, ok, 2, interval, s2, j);
        } else if seenHash == None {
          FirstRun(sha, table, at, text, reply, ok, interval, s2, j);
        } else {
          compared := CompareRun(sha, table, at, text, reply, ok, interval, s2, j);
        }
    }
  }

  // The first text: its hash is set before it is stored.
  method FirstRun(sha: string -> string, table: ScanTable, at: int, text: string, reply: Reply, ok: nat -> bool,
                  ghost interval: int, ghost s: State, ghost j: nat)
    requires Shows(s, table) && j < |s.jobs| && s.jobs[j].phase == FirstHash(text) && s.jobs[j].at == at
    modifies table
    ensures var end := Driven(sha, interval, s, j, reply, ok, 2); Shows(end, table) && end.comparisons == s.comparisons
  {
    if ok(2) {
      table.SetHash(sha(text));
    }
    ghost var s1 := Step(sha, interval, s, Go(j, ok(2)));
    OneStep(sha, interval, s, j, reply, ok, 2, s1);
    if ok(3) {
      table.StoreScanSpec(text, at);
    }
    ghost var s2 := Step(sha, interval, s1, Go(j, ok(3)));
    OneStep(sha, interval, s1, j, reply, ok, 3, s2);
    FinishRun(sha, table, at, Ok, reply, ok, 4, interval, s2, j);
  }

  // A new text is stored before it is compared, and its hash is set last.
  method CompareRun(sha: string -> string, table: ScanTable, at: int, text: string, reply: Reply, ok: nat -> bool,
                    ghost interval: int, ghost s: State, ghost j: nat)
    returns (compared: Option<Comparison>)
    requires Shows(s, table) && j < |s.jobs| && s.jobs[j].phase == NeedBase(text) && s.jobs[j].at == at
    modifies table
    ensures var end := Driven(sha, interval, s, j, reply, ok, 2);
            && Shows(end, table)
            && end.comparisons == if compared.Some? then s.comparisons + [compared.value] else s.comparisons
  {
    var base := "";
    if ok(2) {
      base := table.FetchPreviousSpec();
    }
    ghost var s1 := Step(sha, interval, s, Go(j, ok(2)));
    OneStep(sha, interval, s, j, reply, ok, 2, s1);
    if ok(3) {
      table.StoreScanSpec(text, at);
    }
    ghost var s2 := Step(sha, interval, s1, Go(j, ok(3)));
    OneStep(sha, interval, s1, j, reply, ok, 3, s2);
    compared := RecordRun(sha, table, at, text, base, reply, ok, interval, s2, j);
  }

  method RecordRun(sha: string -> string, table: ScanTable, at: int, text: string, base: string, reply: Reply,
                   ok: nat -> bool, ghost interval: int, ghost s: State, ghost j: nat)
    returns (compared: Option<Comparison>)
    requires Shows(s, table) && j < |s.jobs| && s.jobs[j].phase == NeedDiff(text, base) && s.jobs[j].at == at
    modifies table
    ensures var end := Driven(sha, interval, s, j, reply, ok, 4);
            && Shows(end, table)
            && end.comparisons == if compared.Some? then s.comparisons + [compared.value] else s.comparisons
  {
    compared := if ok(4) then Some(Comparison(base, text)) else None;
    ghost var s1 := Step(sha, interval, s, Go(j, ok(4)));
    OneStep(sha, interval, s, j, reply, ok, 4, s1);
    if ok(5) {
      table.SetHash(sha(text));
    }
    ghost var s2 := Step(sha, interval, s1, Go(j, ok(5)));
    OneStep(sha, interval, s1, j, reply, ok, 5, s2);
    FinishRun(sha, table, at, Ok, reply, ok, 6, interval, s2, j);
  }

  method FinishRun(sha: string -> string, table: ScanTable, at: int, status: RunStatus, reply: Reply, ok: nat -> bool,
                   t: nat, ghost interval: int, ghost s: State, ghost j: nat)
    requires Shows(s, table) && j < |s.jobs| && s.jobs[j].phase == NeedStatus(status) && s.jobs[j].at == at
    modifies table
    ensures var end := Driven(sha, interval, s, j, reply, ok, t); Shows(end, table) && end.comparisons == s.comparisons
  {
    if ok(t) {
      table.SetScanStatus(at, status);
    }
    ghost var s1 := Step(sha, interval, s, Go(j, ok(t)));
    OneStep(sha, interval, s, j, reply, ok, t, s1);
    assert Driven(sha, interval, s1, j, reply, ok, t + 1) == s1;
  }
}
