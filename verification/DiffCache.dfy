/**
 * Diffs as a cache of comparisons (radar-api/src/diffs.rs): content-addressed
 * spec versions, one row per transition, and an all-or-nothing write.
 */
module DiffCache {
  import opened Options
  import opened SnapshotIdentity

  datatype Transition = Transition(from: string, to: string)

  datatype Version = Version(serviceId: string, gitRef: string, format: string, spec: Option<string>, capturedAt: int)

  datatype ChangeRow = ChangeRow(diffId: string, change: Change)

  datatype Database = Database(
    versions: map<string, Version>,
    diffs: map<string, Transition>,
    changes: seq<ChangeRow>)

  datatype WriteOutcome = Created | AlreadyExists(id: string) | Failed

  // ---------------------------------------------------------------------
  // Single statements
  // ---------------------------------------------------------------------

  // INSERT ... ON CONFLICT(id) DO NOTHING
  function WithVersion(db: Database, id: string, v: Version): Database {
    if id in db.versions then db else db.(versions := db.versions[id := v])
  }

  function WithBothVersions(db: Database, r: Request): Database {
    WithVersion(WithVersion(db, r.transition.from, r.fromVersion), r.transition.to, r.toVersion)
  }

  ghost predicate Stored(db: Database, t: Transition) {
    exists id :: id in db.diffs && db.diffs[id] == t
  }

  ghost function DiffOf(db: Database, t: Transition): (id: Option<string>)
    ensures id.None? <==> !Stored(db, t)
    ensures id.Some? ==> id.value in db.diffs && db.diffs[id.value] == t
  {
    if Stored(db, t) then
      var id :| id in db.diffs && db.diffs[id] == t;
      Some(id)
    else None
  }

  function RowsFor(id: string, changes: seq<Change>): seq<ChangeRow> {
    seq(|changes|, i requires 0 <= i < |changes| => ChangeRow(id, changes[i]))
  }

  // The transaction that writes a diff together with all its changes.
  function WithDiff(db: Database, id: string, t: Transition, changes: seq<Change>): Database {
    db.(diffs := db.diffs[id := t], changes := db.changes + RowsFor(id, changes))
  }

  function RowsOf(rows: seq<ChangeRow>, id: string): seq<Change> {
    if rows == [] then []
    else (if rows[0].diffId == id then [rows[0].change] else []) + RowsOf(rows[1..], id)
  }

  class DiffStore {
    var versions: map<string, Version>
    var diffs: map<string, Transition>
    var changes: seq<ChangeRow>

    ghost function View(): Database
      reads this
    {
      Database(versions, diffs, changes)
    }

    constructor ()
      ensures View() == Database(map[], map[], [])
    {
      versions, diffs, changes := map[], map[], [];
    }

    method InsertVersion(id: string, v: Version)
      modifies this
      ensures View() == WithVersion(old(View()), id, v)
    {
      if id !in versions {
        versions := versions[id := v];
      }
    }

    method FindDiff(t: Transition) returns (found: Option<string>)
      ensures found.None? <==> !Stored(View(), t)
      ensures found.Some? ==> found.value in diffs && diffs[found.value] == t
    {
      var ids := diffs.Keys;
      while ids != {}
        invariant ids <= diffs.Keys
        invariant forall id :: id in diffs && diffs[id] == t ==> id in ids
        decreases ids
      {
        var id :| id in ids;
        if diffs[id] == t {
          return Some(id);
        }
        ids := ids - {id};
      }
      return None;
    }

    // `fault` is the number of the statement of the transaction that fails, if
    // any: 0 the diff row, 1.. the change rows, then the commit.
    method PersistDiffAtomic(diffId: string, t: Transition, rows: seq<Change>, fault: Option<nat>)
      returns (outcome: WriteOutcome)
      modifies this
      ensures outcome.Created?
         <==> !Stored(old(View()), t) && diffId !in old(diffs) && (fault == None || fault.value > |rows| + 1)
      ensures outcome.AlreadyExists? <==> Stored(old(View()), t) && fault != Some(0)
      ensures outcome.AlreadyExists? ==> outcome.id in diffs && diffs[outcome.id] == t
      ensures View() == if outcome.Created? then WithDiff(old(View()), diffId, t, rows) else old(View())
    {
      var txDiffs, txChanges := diffs, changes;
      if fault == Some(0) {
        return Failed;
      }
      var transition := FindDiff(t);
      if transition.Some? || diffId in diffs {
        // A unique violation: roll back, then look for the diff in the way.
        var existing := FindDiff(t);
        return if existing.Some? then AlreadyExists(existing.value) else Failed;
      }
      txDiffs := txDiffs[diffId := t];
      for i := 0 to |rows|
        invariant txChanges == changes + RowsFor(diffId, rows[..i])
        invariant View() == old(View())
        invariant fault == None || fault.value > i
      {
        if fault == Some(i + 1) {
          return Failed;
        }
        txChanges := txChanges + [ChangeRow(diffId, rows[i])];
        assert RowsFor(diffId, rows[..i + 1]) == RowsFor(diffId, rows[..i]) + [ChangeRow(diffId, rows[i])];
      }
      if fault == Some(|rows| + 1) {
        return Failed;
      }
      assert rows[..|rows|] == rows;
      diffs, changes := txDiffs, txChanges;
      return Created;
    }

    // One request that nobody interferes with; `newId` is the identifier drawn
    // for its diff, and only the transaction may fail. It does what the steps of a
    // request do in the machine below.
    method Submit(r: Request, newId: string, fault: Option<nat>, ghost reqs: Requests, ghost s: State, ghost p: nat)
      returns (answer: Option<string>)
      requires p in reqs && reqs[p] == r && p in s.phases && s.phases[p] == Begun && s.db == View()
      modifies this
      ensures var t := Run(reqs, s, SubmitSteps(p, newId, Faulty(r, fault)));
              && View() == t.db && p in t.phases && (answer.Some? <==> t.phases[p].Done?)
              && (answer.Some? && OneDiffPerTransition(t.db) ==> t.phases[p] == Done(answer.value))
      ensures View() == if answer.Some? && !Stored(old(View()), r.transition)
                        then WithDiff(WithBothVersions(old(View()), r), newId, r.transition, r.changes)
                        else WithBothVersions(old(View()), r)
      ensures answer.Some? ==> answer.value in diffs && diffs[answer.value] == r.transition
      ensures answer.Some?
         <==> Stored(old(View()), r.transition) || (newId !in old(diffs) && !Faulty(r, fault))
    {
      SubmitInMachine(reqs, s, p, newId, Faulty(r, fault));
      InsertVersion(r.transition.from, r.fromVersion);
      InsertVersion(r.transition.to, r.toVersion);
      var existing := FindDiff(r.transition);
      if existing.Some? {
        return existing;
      }
      var outcome := PersistDiffAtomic(newId, r.transition, r.changes, fault);
      match outcome {
        case Created => return Some(newId);
        case AlreadyExists(id) => return Some(id);
        case Failed => return None;
      }
    }
  }

  lemma {:induction false} RowsOfConcat(a: seq<ChangeRow>, b: seq<ChangeRow>, id: string)
    ensures RowsOf(a + b, id) == RowsOf(a, id) + RowsOf(b, id)
  {
    if a == [] {
      assert a + b == b;
    } else {
      var own := if a[0].diffId == id then [a[0].change] else [];
      assert (a + b)[0] == a[0] && (a + b)[1..] == a[1..] + b;
      RowsOfConcat(a[1..], b, id);
      assert own + (RowsOf(a[1..], id) + RowsOf(b, id)) == (own + RowsOf(a[1..], id)) + RowsOf(b, id);
    }
  }

  lemma {:induction false} RowsOfOwn(own: string, changes: seq<Change>, id: string)
    ensures RowsOf(RowsFor(own, changes), id) == if own == id then changes else []
  {
    if changes != [] {
      assert RowsFor(own, changes)[1..] == RowsFor(own, changes[1..]);
      RowsOfOwn(own, changes[1..], id);
      assert changes == [changes[0]] + changes[1..];
    }
  }

  lemma {:induction false} RowsOfAbsent(rows: seq<ChangeRow>, id: string)
    requires forall r :: r in rows ==> r.diffId != id
    ensures RowsOf(rows, id) == []
  {
    if rows != [] {
      RowsOfAbsent(rows[1..], id);
    }
  }

  // ---------------------------------------------------------------------
  // Concurrent requests
  // ---------------------------------------------------------------------

  // What a request is going to write, fixed before its first statement.
  datatype Request = Request(
    transition: Transition,
    fromVersion: Version,
    toVersion: Version,
    changes: seq<Change>)

  datatype Phase = Begun | FromStored | ToStored | Missed | Conflicted | Done(id: string) | Aborted

  datatype State = State(db: Database, phases: map<nat, Phase>)

  // A request's next statement, or an error or a crash that ends it.
  datatype Action = StoreFrom | StoreTo | Look | Persist(newId: string) | LookAgain | Abort

  type Requests = map<nat, Request>

  ghost function Step(reqs: Requests, s: State, p: nat, a: Action): State
  {
    if p !in reqs || p !in s.phases then s
    else
      var r, phase := reqs[p], s.phases[p];
      match a
      case StoreFrom =>
        if phase != Begun then s
        else State(WithVersion(s.db, r.transition.from, r.fromVersion), s.phases[p := FromStored])
      case StoreTo =>
        if phase != FromStored then s
        else State(WithVersion(s.db, r.transition.to, r.toVersion), s.phases[p := ToStored])
      case Look =>
        if phase != ToStored then s
        else
          (match DiffOf(s.db, r.transition)
           case Some(id) => s.(phases := s.phases[p := Done(id)])
           case None => s.(phases := s.phases[p := Missed]))
      case Persist(newId) =>
        if phase != Missed then s
        else if Stored(s.db, r.transition) || newId in s.db.diffs then s.(phases := s.phases[p := Conflicted])
        else State(WithDiff(s.db, newId, r.transition, r.changes), s.phases[p := Done(newId)])
      case LookAgain =>
        if phase != Conflicted then s
        else
          (match DiffOf(s.db, r.transition)
           case Some(id) => s.(phases := s.phases[p := Done(id)])
           case None => s.(phases := s.phases[p := Aborted]))
      case Abort =>
        if phase.Done? then s else s.(phases := s.phases[p := Aborted])
  }

  ghost function Run(reqs: Requests, s: State, steps: seq<(nat, Action)>): State
    decreases |steps|
  {
    if steps == [] then s else Run(reqs, Step(reqs, s, steps[0].0, steps[0].1), steps[1..])
  }

  ghost function Start(reqs: Requests): State {
    State(Database(map[], map[], []), map p | p in reqs :: Begun)
  }

  // All requests for the transition of this one carry its changes, in whatever order.
  ghost predicate Agreed(reqs: Requests, p: nat)
    requires p in reqs
  {
    forall q :: q in reqs && reqs[q].transition == reqs[p].transition
      ==> multiset(reqs[q].changes) == multiset(reqs[p].changes)
  }

  ghost predicate OneDiffPerTransition(db: Database) {
    forall c, d :: c in db.diffs && d in db.diffs && db.diffs[c] == db.diffs[d] ==> c == d
  }

  ghost predicate NoOrphans(db: Database) {
    && (forall r :: r in db.changes ==> r.diffId in db.diffs)
    && (forall d :: d in db.diffs ==> db.diffs[d].from in db.versions && db.diffs[d].to in db.versions)
  }

  // A stored diff holds all the changes a request for its transition has, if those
  // requests agree about them.
  ghost predicate Complete(reqs: Requests, db: Database) {
    forall d, p :: d in db.diffs && p in reqs && Agreed(reqs, p) && reqs[p].transition == db.diffs[d]
      ==> multiset(RowsOf(db.changes, d)) == multiset(reqs[p].changes)
  }

  ghost predicate PhaseOk(r: Request, db: Database, phase: Phase) {
    && (phase.FromStored? ==> r.transition.from in db.versions)
    && (phase.ToStored? || phase.Missed? ==> r.transition.from in db.versions && r.transition.to in db.versions)
    && (phase.Done? ==> phase.id in db.diffs && db.diffs[phase.id] == r.transition)
  }

  ghost predicate DbOk(reqs: Requests, db: Database) {
    OneDiffPerTransition(db) && NoOrphans(db) && Complete(reqs, db)
  }

  ghost predicate PhasesOk(reqs: Requests, s: State) {
    forall p :: p in reqs && p in s.phases ==> PhaseOk(reqs[p], s.db, s.phases[p])
  }

  ghost predicate Inv(reqs: Requests, s: State) {
    s.phases.Keys == reqs.Keys && DbOk(reqs, s.db) && PhasesOk(reqs, s)
  }

  ghost predicate DiffKept(before: Database, after: Database, d: string)
    requires d in before.diffs
  {
    d in after.diffs && after.diffs[d] == before.diffs[d] && RowsOf(after.changes, d) == RowsOf(before.changes, d)
  }

  // Versions and diffs are only ever added, and stay as they were stored.
  ghost predicate Grows(before: Database, after: Database) {
    && (forall id :: id in before.versions ==> id in after.versions && after.versions[id] == before.versions[id])
    && (forall d :: d in before.diffs ==> DiffKept(before, after, d))
  }

  lemma {:induction false} CommittedRows(db: Database, id: string, t: Transition, changes: seq<Change>, d: string)
    requires NoOrphans(db) && id !in db.diffs && (d == id || d in db.diffs)
    ensures RowsOf(WithDiff(db, id, t, changes).changes, d) == if d == id then changes else RowsOf(db.changes, d)
  {
    RowsOfConcat(db.changes, RowsFor(id, changes), d);
    RowsOfOwn(id, changes, d);
    if d == id {
      RowsOfAbsent(db.changes, id);
    }
  }

  lemma CommitGrows(db: Database, id: string, t: Transition, changes: seq<Change>)
    requires NoOrphans(db) && id !in db.diffs
    ensures Grows(db, WithDiff(db, id, t, changes))
  {
    forall d | d in db.diffs ensures DiffKept(db, WithDiff(db, id, t, changes), d) {
      CommittedRows(db, id, t, changes, d);
    }
  }

  lemma CommitIsComplete(reqs: Requests, db: Database, p: nat, id: string)
    requires p in reqs && NoOrphans(db) && Complete(reqs, db) && id !in db.diffs
    ensures Complete(reqs, WithDiff(db, id, reqs[p].transition, reqs[p].changes))
  {
    var db' := WithDiff(db, id, reqs[p].transition, reqs[p].changes);
    forall d, q | d in db'.diffs && q in reqs && Agreed(reqs, q) && reqs[q].transition == db'.diffs[d]
      ensures multiset(RowsOf(db'.changes, d)) == multiset(reqs[q].changes)
    {
      CommittedRows(db, id, reqs[p].transition, reqs[p].changes, d);
    }
  }

  lemma StepGrows(reqs: Requests, s: State, p: nat, a: Action)
    requires Inv(reqs, s)
    ensures Grows(s.db, Step(reqs, s, p, a).db) && DbOk(reqs, Step(reqs, s, p, a).db)
  {
    if p in reqs && a.Persist? && s.phases[p] == Missed
       && !Stored(s.db, reqs[p].transition) && a.newId !in s.db.diffs {
      var t, changes := reqs[p].transition, reqs[p].changes;
      assert PhaseOk(reqs[p], s.db, s.phases[p]);
      CommitGrows(s.db, a.newId, t, changes);
      CommitIsComplete(reqs, s.db, p, a.newId);
    } else {
      var db' := Step(reqs, s, p, a).db;
      assert db'.diffs == s.db.diffs && db'.changes == s.db.changes;
    }
  }

  lemma StepKeepsInv(reqs: Requests, s: State, p: nat, a: Action)
    requires Inv(reqs, s)
    ensures Inv(reqs, Step(reqs, s, p, a)) && Grows(s.db, Step(reqs, s, p, a).db)
  {
    var s' := Step(reqs, s, p, a);
    StepGrows(reqs, s, p, a);
    forall q | q in reqs && q in s'.phases ensures PhaseOk(reqs[q], s'.db, s'.phases[q]) {
      assert PhaseOk(reqs[q], s.db, s.phases[q]);
      PhaseStaysOk(reqs[q], s.db, s'.db, s.phases[q]);
      if q == p {
        OwnPhaseIsOk(reqs, s, p, a);
      } else {
        OthersDoNotMove(reqs, s, p, a, q);
      }
    }
  }

  lemma PhaseStaysOk(r: Request, before: Database, after: Database, phase: Phase)
    requires PhaseOk(r, before, phase) && Grows(before, after)
    ensures PhaseOk(r, after, phase)
  {
  }

  lemma OwnPhaseIsOk(reqs: Requests, s: State, p: nat, a: Action)
    requires p in reqs && p in s.phases && PhaseOk(reqs[p], s.db, s.phases[p])
    requires Grows(s.db, Step(reqs, s, p, a).db)
    ensures var s' := Step(reqs, s, p, a); p in s'.phases && PhaseOk(reqs[p], s'.db, s'.phases[p])
  {
  }

  lemma OthersDoNotMove(reqs: Requests, s: State, p: nat, a: Action, q: nat)
    requires q != p && q in s.phases
    ensures var s' := Step(reqs, s, p, a); q in s'.phases && s'.phases[q] == s.phases[q]
  {
  }

  lemma GrowsOn(a: Database, b: Database, c: Database)
    requires Grows(a, b) && Grows(b, c)
    ensures Grows(a, c)
  {
  }

  lemma {:induction false} RunKeepsInv(reqs: Requests, s: State, steps: seq<(nat, Action)>)
    requires Inv(reqs, s)
    ensures Inv(reqs, Run(reqs, s, steps))
    ensures Grows(s.db, Run(reqs, s, steps).db)
    decreases |steps|
  {
    if steps != [] {
      var s' := Step(reqs, s, steps[0].0, steps[0].1);
      StepKeepsInv(reqs, s, steps[0].0, steps[0].1);
      RunKeepsInv(reqs, s', steps[1..]);
      GrowsOn(s.db, s'.db, Run(reqs, s, steps).db);
    }
  }

  lemma StartIsOk(reqs: Requests)
    ensures Inv(reqs, Start(reqs))
  {
  }

  // ---------------------------------------------------------------------
  // What the answers are worth
  // ---------------------------------------------------------------------

  // Under every interleaving: one diff per transition, and the diff a request is
  // answered with is for its transition. If the requests for that transition agree
  // about the changes, it holds exactly those, whoever stored it.
  lemma {:induction false} AnswersAreCurrent(reqs: Requests, steps: seq<(nat, Action)>, p: nat)
    requires p in reqs
    ensures var s := Run(reqs, Start(reqs), steps);
            && OneDiffPerTransition(s.db)
            && p in s.phases
            && (s.phases[p].Done? ==>
                  var id := s.phases[p].id;
                  && id in s.db.diffs && s.db.diffs[id] == reqs[p].transition
                  && (Agreed(reqs, p) ==> multiset(RowsOf(s.db.changes, id)) == multiset(reqs[p].changes)))
  {
    StartIsOk(reqs);
    RunKeepsInv(reqs, Start(reqs), steps);
    var s := Run(reqs, Start(reqs), steps);
    assert PhaseOk(reqs[p], s.db, s.phases[p]);
  }

  // Finished requests have the same answer exactly when they ask for the same
  // transition.
  lemma {:induction false} SameTransitionSameAnswer(reqs: Requests, steps: seq<(nat, Action)>, p: nat, q: nat)
    requires p in reqs && q in reqs
    requires var s := Run(reqs, Start(reqs), steps);
             p in s.phases && q in s.phases && s.phases[p].Done? && s.phases[q].Done?
    ensures var s := Run(reqs, Start(reqs), steps);
            s.phases[p].id == s.phases[q].id <==> reqs[p].transition == reqs[q].transition
  {
    AnswersAreCurrent(reqs, steps, p);
    AnswersAreCurrent(reqs, steps, q);
  }

  lemma {:induction false} RunConcat(reqs: Requests, s: State, a: seq<(nat, Action)>, b: seq<(nat, Action)>)
    ensures Run(reqs, s, a + b) == Run(reqs, Run(reqs, s, a), b)
    decreases |a|
  {
    if a == [] {
      assert a + b == b;
    } else {
      assert (a + b)[0] == a[0] && (a + b)[1..] == a[1..] + b;
      RunConcat(reqs, Step(reqs, s, a[0].0, a[0].1), a[1..], b);
    }
  }

  // Later requests never alter a stored version, diff or set of changes.
  lemma {:induction false} StoredStays(reqs: Requests, earlier: seq<(nat, Action)>, later: seq<(nat, Action)>)
    ensures Grows(Run(reqs, Start(reqs), earlier).db, Run(reqs, Start(reqs), earlier + later).db)
  {
    StartIsOk(reqs);
    RunKeepsInv(reqs, Start(reqs), earlier);
    RunKeepsInv(reqs, Run(reqs, Start(reqs), earlier), later);
    RunConcat(reqs, Start(reqs), earlier, later);
  }

  function Remaining(p: nat, newId: string): seq<(nat, Action)> {
    [(p, StoreFrom), (p, StoreTo)] + [(p, Look), (p, Persist(newId)), (p, LookAgain)]
  }

  lemma {:induction false} RunOf1(reqs: Requests, s: State, a: (nat, Action))
    ensures Run(reqs, s, [a]) == Step(reqs, s, a.0, a.1)
  {
  }

  lemma {:induction false} RunOf2(reqs: Requests, s: State, a: (nat, Action), b: (nat, Action))
    ensures Run(reqs, s, [a, b]) == Step(reqs, Step(reqs, s, a.0, a.1), b.0, b.1)
  {
    RunConcat(reqs, s, [a], [b]);
    RunOf1(reqs, s, a);
    RunOf1(reqs, Step(reqs, s, a.0, a.1), b);
    assert [a] + [b] == [a, b];
  }

  lemma {:induction false} RunOf3(reqs: Requests, s: State, a: (nat, Action), b: (nat, Action), c: (nat, Action))
    ensures Run(reqs, s, [a, b, c]) == Step(reqs, Step(reqs, Step(reqs, s, a.0, a.1), b.0, b.1), c.0, c.1)
  {
    RunConcat(reqs, s, [a, b], [c]);
    RunOf2(reqs, s, a, b);
    RunOf1(reqs, Step(reqs, Step(reqs, s, a.0, a.1), b.0, b.1), c);
    assert [a, b] + [c] == [a, b, c];
  }

  lemma {:induction false} FirstTwo(reqs: Requests, s: State, a: (nat, Action), b: (nat, Action),
      rest: seq<(nat, Action)>)
    ensures Run(reqs, s, [a, b] + rest) == Run(reqs, Step(reqs, Step(reqs, s, a.0, a.1), b.0, b.1), rest)
  {
  }

  // A fault hits the transaction of a request.
  predicate Faulty(r: Request, fault: Option<nat>) {
    fault.Some? && fault.value <= |r.changes| + 1
  }

  function SubmitSteps(p: nat, newId: string, faulty: bool): seq<(nat, Action)> {
    if faulty then [(p, StoreFrom), (p, StoreTo)] + [(p, Look), (p, Abort)] else Remaining(p, newId)
  }

  lemma {:induction false} SubmitInMachine(reqs: Requests, s: State, p: nat, newId: string, faulty: bool)
    requires p in reqs && p in s.phases && s.phases[p] == Begun
    ensures var db, t := WithBothVersions(s.db, reqs[p]), Run(reqs, s, SubmitSteps(p, newId, faulty));
            p in t.phases &&
            if Stored(s.db, reqs[p].transition) then
              && t.db == db && t.phases[p].Done?
              && t.phases[p].id in db.diffs && db.diffs[t.phases[p].id] == reqs[p].transition
            else if faulty || newId in s.db.diffs then t.db == db && t.phases[p] == Aborted
            else t.db == WithDiff(db, newId, reqs[p].transition, reqs[p].changes) && t.phases[p] == Done(newId)
  {
    var s2 := Step(reqs, Step(reqs, s, p, StoreFrom), p, StoreTo);
    assert s2.phases[p] == ToStored && s2.db == WithBothVersions(s.db, reqs[p]);
    if faulty {
      FirstTwo(reqs, s, (p, StoreFrom), (p, StoreTo), [(p, Look), (p, Abort)]);
      RunOf2(reqs, s2, (p, Look), (p, Abort));
    } else {
      FirstTwo(reqs, s, (p, StoreFrom), (p, StoreTo), [(p, Look), (p, Persist(newId)), (p, LookAgain)]);
      RunOf3(reqs, s2, (p, Look), (p, Persist(newId)), (p, LookAgain));
    }
  }

  lemma EarlierHalfLooks(reqs: Requests, s: State, p: nat)
    requires p in reqs && p in s.phases && s.phases[p] != Aborted
    ensures var t := Step(reqs, Step(reqs, Step(reqs, s, p, StoreFrom), p, StoreTo), p, Look);
            && t.db.diffs == s.db.diffs && p in t.phases
            && (t.phases[p].Done? || t.phases[p] == Missed || (t.phases[p] == Conflicted && s.phases[p] == Conflicted))
  {
  }

  // Once it has looked, a request writes its diff or finds the one in the way.
  lemma LaterHalfFinishes(reqs: Requests, s: State, p: nat, newId: string)
    requires p in reqs && p in s.phases && newId !in s.db.diffs
    requires s.phases[p].Done? || s.phases[p] == Missed || s.phases[p] == Conflicted
    ensures var t := Step(reqs, Step(reqs, s, p, Persist(newId)), p, LookAgain);
            p in t.phases && (t.phases[p].Done? <==> (s.phases[p] == Conflicted ==> Stored(s.db, reqs[p].transition)))
  {
  }

  // Given an identifier no diff uses yet, a request can finish from wherever the
  // others left the database, exactly unless it failed, or lost to a diff that
  // is not of its transition.
  lemma {:induction false} RequestCanFinish(reqs: Requests, s: State, p: nat, newId: string)
    requires p in reqs && p in s.phases && newId !in s.db.diffs
    ensures var t := Run(reqs, s, Remaining(p, newId));
            p in t.phases && (t.phases[p].Done?
              <==> s.phases[p] != Aborted && (s.phases[p] == Conflicted ==> Stored(s.db, reqs[p].transition)))
  {
    var s2 := Step(reqs, Step(reqs, s, p, StoreFrom), p, StoreTo);
    RunOf3(reqs, s2, (p, Look), (p, Persist(newId)), (p, LookAgain));
    FirstTwo(reqs, s, (p, StoreFrom), (p, StoreTo), [(p, Look), (p, Persist(newId)), (p, LookAgain)]);
    if s.phases[p] != Aborted {
      EarlierHalfLooks(reqs, s, p);
      LaterHalfFinishes(reqs, Step(reqs, s2, p, Look), p, newId);
    }
  }

  // ---------------------------------------------------------------------
  // Family one: submitted reports
  // ---------------------------------------------------------------------

  datatype CreateBody = CreateBody(
    serviceId: string, fromRef: string, toRef: string, format: string, spec: Option<string>,
    changes: seq<Change>, now: int)

  // POST /v1/services/:id/diffs
  function CreateRequest(h: Hashing, b: CreateBody): Request {
    var report := ReportIdentity(b.changes);
    Request(
      Transition(SnapshotVersionId(h, b.serviceId, b.fromRef, b.format, report),
                 SnapshotVersionId(h, b.serviceId, b.toRef, b.format, b.spec.GetOr(report))),
      Version(b.serviceId, b.fromRef, b.format, None, b.now),
      Version(b.serviceId, b.toRef, b.format, b.spec, b.now),
      b.changes)
  }

  // A report is answered from the cache exactly by one that says the same about
  // the same snapshots.
  lemma CreateTransitionsCollideExactly(h: Hashing, a: CreateBody, b: CreateBody)
    requires Ideal(h)
    ensures CreateRequest(h, a).transition == CreateRequest(h, b).transition
       <==> && a.serviceId == b.serviceId && a.fromRef == b.fromRef && a.toRef == b.toRef
            && h.lower(a.format) == h.lower(b.format)
            && multiset(a.changes) == multiset(b.changes)
            && a.spec.GetOr(ReportIdentity(a.changes)) == b.spec.GetOr(ReportIdentity(b.changes))
  {
    var x, y := ReportIdentity(a.changes), ReportIdentity(b.changes);
    SnapshotIdsCollideExactly(h, a.serviceId, a.fromRef, a.format, x, b.serviceId, b.fromRef, b.format, y);
    SnapshotIdsCollideExactly(h, a.serviceId, a.toRef, a.format, a.spec.GetOr(x),
                                 b.serviceId, b.toRef, b.format, b.spec.GetOr(y));
    ReportsCollideExactly(a.changes, b.changes);
  }

  ghost function CreateRequests(h: Hashing, bodies: map<nat, CreateBody>): Requests {
    map p | p in bodies :: CreateRequest(h, bodies[p])
  }

  // The report is part of the identity of the base, so a changed report cannot
  // meet an older diff.
  lemma SameTransitionSameReport(h: Hashing, a: CreateBody, b: CreateBody)
    requires Ideal(h) && CreateRequest(h, a).transition == CreateRequest(h, b).transition
    ensures multiset(CreateRequest(h, a).changes) == multiset(CreateRequest(h, b).changes)
  {
    CreateTransitionsCollideExactly(h, a, b);
  }

  lemma {:induction false} CreateAnswersAreCurrent(h: Hashing, bodies: map<nat, CreateBody>,
      steps: seq<(nat, Action)>, p: nat)
    requires Ideal(h) && p in bodies
    ensures var reqs := CreateRequests(h, bodies);
            var s := Run(reqs, Start(reqs), steps);
            p in s.phases && (s.phases[p].Done? ==>
              multiset(RowsOf(s.db.changes, s.phases[p].id)) == multiset(bodies[p].changes))
  {
    var reqs := CreateRequests(h, bodies);
    forall q | q in reqs && reqs[q].transition == reqs[p].transition
      ensures multiset(reqs[q].changes) == multiset(reqs[p].changes)
    {
      SameTransitionSameReport(h, bodies[q], bodies[p]);
    }
    AnswersAreCurrent(reqs, steps, p);
  }

  // ---------------------------------------------------------------------
  // Family two: compared texts (single and batch)
  // ---------------------------------------------------------------------

  datatype Language = GraphQl | Protobuf | OpenApi

  // The parser and diff engine a lower-cased format selects.
  function LanguageOf(format: string): Language {
    if format == "graphql" || format == "gql" then GraphQl
    else if format == "protobuf" || format == "proto" then Protobuf
    else OpenApi
  }

  // Two names each for two of them, and OpenAPI for every other format.
  lemma LanguagesExactly(format: string)
    ensures LanguageOf(format) == GraphQl <==> format in ["graphql", "gql"]
    ensures LanguageOf(format) == Protobuf <==> format in ["protobuf", "proto"]
  {
    assert "graphql"[0] == 'g' && "gql"[0] == 'g' && "protobuf"[0] == 'p' && "proto"[0] == 'p';
  }

  // Parsing and diffing of two texts; nothing when one does not parse.
  type Engine = (Language, string, string) -> Option<seq<Change>>

  datatype CompareBody = CompareBody(
    serviceId: string, baseRef: string, headRef: string, format: string, base: string, head: string, now: int)

  // POST /v1/services/:id/diffs/compare, and one item of POST /v1/compare/batch.
  // A text that does not parse is rejected before anything is written. Batch
  // items come with their format in lower case.
  function CompareRequest(h: Hashing, engine: Engine, b: CompareBody): Option<Request> {
    var format := h.lower(b.format);
    match engine(LanguageOf(format), b.base, b.head)
    case None => None
    case Some(changes) =>
      Some(Request(
        Transition(SnapshotVersionId(h, b.serviceId, b.baseRef, format, b.base),
                   SnapshotVersionId(h, b.serviceId, b.headRef, format, b.head)),
        Version(b.serviceId, b.baseRef, b.format, Some(b.base), b.now),
        Version(b.serviceId, b.headRef, b.format, Some(b.head), b.now),
        changes))
  }

  ghost predicate AllParse(h: Hashing, engine: Engine, bodies: map<nat, CompareBody>) {
    forall p :: p in bodies ==> CompareRequest(h, engine, bodies[p]).Some?
  }

  ghost function CompareRequests(h: Hashing, engine: Engine, bodies: map<nat, CompareBody>): Requests
    requires AllParse(h, engine, bodies)
  {
    map p | p in bodies :: CompareRequest(h, engine, bodies[p]).value
  }

  lemma CompareTransitionsCollideExactly(h: Hashing, engine: Engine, a: CompareBody, b: CompareBody)
    requires Ideal(h)
    requires CompareRequest(h, engine, a).Some? && CompareRequest(h, engine, b).Some?
    ensures CompareRequest(h, engine, a).value.transition == CompareRequest(h, engine, b).value.transition
       <==> && a.serviceId == b.serviceId && a.baseRef == b.baseRef && a.headRef == b.headRef
            && h.lower(a.format) == h.lower(b.format) && a.base == b.base && a.head == b.head
  {
    SnapshotIdsCollideExactly(h, a.serviceId, a.baseRef, h.lower(a.format), a.base,
                                 b.serviceId, b.baseRef, h.lower(b.format), b.base);
    SnapshotIdsCollideExactly(h, a.serviceId, a.headRef, h.lower(a.format), a.head,
                                 b.serviceId, b.headRef, h.lower(b.format), b.head);
  }

  // The cached diff holds exactly the changes a recomputation gives.
  lemma {:induction false} CompareAnswersAreCurrent(h: Hashing, engine: Engine, bodies: map<nat, CompareBody>,
      steps: seq<(nat, Action)>, p: nat)
    requires Ideal(h) && AllParse(h, engine, bodies) && p in bodies
    ensures var reqs := CompareRequests(h, engine, bodies);
            var s := Run(reqs, Start(reqs), steps);
            p in s.phases && (s.phases[p].Done? ==>
              multiset(RowsOf(s.db.changes, s.phases[p].id))
                == multiset(engine(LanguageOf(h.lower(bodies[p].format)), bodies[p].base, bodies[p].head).value))
  {
    var reqs := CompareRequests(h, engine, bodies);
    forall q | q in reqs && reqs[q].transition == reqs[p].transition
      ensures multiset(reqs[q].changes) == multiset(reqs[p].changes)
    {
      CompareTransitionsCollideExactly(h, engine, bodies[q], bodies[p]);
    }
    AnswersAreCurrent(reqs, steps, p);
  }

  ghost predicate Requested(reqs: Requests, id: string, v: Version) {
    exists p :: p in reqs && ((id == reqs[p].transition.from && v == reqs[p].fromVersion)
                              || (id == reqs[p].transition.to && v == reqs[p].toVersion))
  }

  ghost predicate AllRequested(reqs: Requests, db: Database) {
    forall id :: id in db.versions ==> Requested(reqs, id, db.versions[id])
  }

  lemma {:induction false} VersionsAreRequested(reqs: Requests, s: State, steps: seq<(nat, Action)>)
    requires AllRequested(reqs, s.db)
    ensures AllRequested(reqs, Run(reqs, s, steps).db)
    decreases |steps|
  {
    if steps != [] {
      VersionsAreRequested(reqs, Step(reqs, s, steps[0].0, steps[0].1), steps[1..]);
    }
  }

  ghost predicate HasLabels(h: Hashing, v: Version, serviceId: string, gitRef: string, format: string) {
    v.serviceId == serviceId && v.gitRef == gitRef && h.lower(v.format) == h.lower(format)
  }

  // The stored version is this text under these labels.
  ghost predicate IsSnapshot(h: Hashing, v: Version, serviceId: string, gitRef: string, format: string, text: string) {
    HasLabels(h, v, serviceId, gitRef, format) && v.spec == Some(text)
  }

  lemma RequestedText(h: Hashing, engine: Engine, bodies: map<nat, CompareBody>,
                      serviceId: string, gitRef: string, format: string, text: string, v: Version)
    requires Ideal(h) && AllParse(h, engine, bodies)
    requires Requested(CompareRequests(h, engine, bodies), SnapshotVersionId(h, serviceId, gitRef, format, text), v)
    ensures IsSnapshot(h, v, serviceId, gitRef, format, text)
  {
    var reqs := CompareRequests(h, engine, bodies);
    var id := SnapshotVersionId(h, serviceId, gitRef, format, text);
    var p :| p in reqs && ((id == reqs[p].transition.from && v == reqs[p].fromVersion)
                           || (id == reqs[p].transition.to && v == reqs[p].toVersion));
    var c := bodies[p];
    SnapshotIdsCollideExactly(h, serviceId, gitRef, format, text, c.serviceId, c.baseRef, h.lower(c.format), c.base);
    SnapshotIdsCollideExactly(h, serviceId, gitRef, format, text, c.serviceId, c.headRef, h.lower(c.format), c.head);
  }

  // The version stored for a compared text is that text under its own labels,
  // whichever request came first.
  lemma {:induction false} StoredTextIsComparedText(h: Hashing, engine: Engine, bodies: map<nat, CompareBody>,
      steps: seq<(nat, Action)>, p: nat)
    requires Ideal(h) && AllParse(h, engine, bodies) && p in bodies
    ensures var reqs := CompareRequests(h, engine, bodies);
            var versions := Run(reqs, Start(reqs), steps).db.versions;
            var t, b := reqs[p].transition, bodies[p];
            && (t.from in versions ==> IsSnapshot(h, versions[t.from], b.serviceId, b.baseRef, b.format, b.base))
            && (t.to in versions ==> IsSnapshot(h, versions[t.to], b.serviceId, b.headRef, b.format, b.head))
  {
    var reqs := CompareRequests(h, engine, bodies);
    VersionsAreRequested(reqs, Start(reqs), steps);
    var versions := Run(reqs, Start(reqs), steps).db.versions;
    var b, t := bodies[p], reqs[p].transition;
    if t.from in versions {
      RequestedText(h, engine, bodies, b.serviceId, b.baseRef, h.lower(b.format), b.base, versions[t.from]);
    }
    if t.to in versions {
      RequestedText(h, engine, bodies, b.serviceId, b.headRef, h.lower(b.format), b.head, versions[t.to]);
    }
  }

  // ---------------------------------------------------------------------
  // What submitted reports store
  // ---------------------------------------------------------------------

  lemma RequestedLabels(h: Hashing, bodies: map<nat, CreateBody>, serviceId: string, gitRef: string,
                        format: string, text: string, v: Version)
    requires Ideal(h)
    requires Requested(CreateRequests(h, bodies), SnapshotVersionId(h, serviceId, gitRef, format, text), v)
    ensures HasLabels(h, v, serviceId, gitRef, format)
    ensures v.spec.Some? ==> v.spec.value == text
    ensures v.spec.None? ==>
              exists q :: q in bodies && text == ReportIdentity(bodies[q].changes)
                          && Names(h, bodies[q], serviceId, gitRef, format)
  {
    var reqs := CreateRequests(h, bodies);
    var id := SnapshotVersionId(h, serviceId, gitRef, format, text);
    var q :| q in reqs && ((id == reqs[q].transition.from && v == reqs[q].fromVersion)
                           || (id == reqs[q].transition.to && v == reqs[q].toVersion));
    var c := bodies[q];
    var report := ReportIdentity(c.changes);
    SnapshotIdsCollideExactly(h, serviceId, gitRef, format, text, c.serviceId, c.fromRef, c.format, report);
    SnapshotIdsCollideExactly(h, serviceId, gitRef, format, text, c.serviceId, c.toRef, c.format, c.spec.GetOr(report));
    assert v.spec.None? ==> Names(h, c, serviceId, gitRef, format);
  }

  // The report stores a version without a text under these labels.
  ghost predicate Names(h: Hashing, c: CreateBody, serviceId: string, gitRef: string, format: string) {
    && c.serviceId == serviceId && h.lower(c.format) == h.lower(format)
    && (c.fromRef == gitRef || (c.toRef == gitRef && c.spec == None))
  }

  // What is stored for a submitted report has its labels, whichever request came first.
  lemma {:induction false} StoredLabelsAreSubmitted(h: Hashing, bodies: map<nat, CreateBody>,
      steps: seq<(nat, Action)>, p: nat)
    requires Ideal(h) && p in bodies
    ensures var reqs := CreateRequests(h, bodies);
            var versions := Run(reqs, Start(reqs), steps).db.versions;
            var t, b := reqs[p].transition, bodies[p];
            && (t.from in versions ==> HasLabels(h, versions[t.from], b.serviceId, b.fromRef, b.format))
            && (t.to in versions ==> HasLabels(h, versions[t.to], b.serviceId, b.toRef, b.format))
  {
    var reqs := CreateRequests(h, bodies);
    VersionsAreRequested(reqs, Start(reqs), steps);
    var versions := Run(reqs, Start(reqs), steps).db.versions;
    var t, b := reqs[p].transition, bodies[p];
    var report := ReportIdentity(b.changes);
    if t.from in versions {
      RequestedLabels(h, bodies, b.serviceId, b.fromRef, b.format, report, versions[t.from]);
    }
    if t.to in versions {
      RequestedLabels(h, bodies, b.serviceId, b.toRef, b.format, b.spec.GetOr(report), versions[t.to]);
    }
  }

  // Some report says this very text, and stores a version without it under the head's labels.
  ghost predicate Shadowed(h: Hashing, bodies: map<nat, CreateBody>, p: nat)
    requires p in bodies && bodies[p].spec.Some?
  {
    exists q :: q in bodies && bodies[p].spec.value == ReportIdentity(bodies[q].changes)
      && Names(h, bodies[q], bodies[p].serviceId, bodies[p].toRef, bodies[p].format)
  }

  ghost predicate TextIsKept(reqs: Requests, db: Database, p: nat, text: string)
    requires p in reqs
  {
    reqs[p].transition.to in db.versions ==> db.versions[reqs[p].transition.to].spec == Some(text)
  }

  // A request stores its base version with its first statement.
  lemma {:induction false} FirstStatement(reqs: Requests, q: nat)
    requires q in reqs
    ensures Run(reqs, Start(reqs), [(q, StoreFrom)]).db.versions == map[reqs[q].transition.from := reqs[q].fromVersion]
  {
    RunOf1(reqs, Start(reqs), (q, StoreFrom));
  }

  lemma {:induction false} FirstTwoStatements(reqs: Requests, q: nat)
    requires q in reqs && reqs[q].transition.from != reqs[q].transition.to
    ensures var versions := Run(reqs, Start(reqs), [(q, StoreFrom), (q, StoreTo)]).db.versions;
            reqs[q].transition.to in versions && versions[reqs[q].transition.to] == reqs[q].toVersion
  {
    RunOf2(reqs, Start(reqs), (q, StoreFrom), (q, StoreTo));
  }

  // The head text submitted with a report is what is stored in every run, exactly if it
  // is not the fingerprint of a report that leaves a version without a text there.
  lemma {:induction false} SubmittedTextIsKeptExactly(h: Hashing, bodies: map<nat, CreateBody>, p: nat)
    requires Ideal(h) && p in bodies && bodies[p].spec.Some?
    ensures var reqs := CreateRequests(h, bodies);
            (forall steps :: TextIsKept(reqs, Run(reqs, Start(reqs), steps).db, p, bodies[p].spec.value))
            <==> !Shadowed(h, bodies, p)
  {
    var reqs, b := CreateRequests(h, bodies), bodies[p];
    if Shadowed(h, bodies, p) {
      ShadowLosesText(h, bodies, p);
    } else {
      forall steps ensures TextIsKept(reqs, Run(reqs, Start(reqs), steps).db, p, b.spec.value) {
        VersionsAreRequested(reqs, Start(reqs), steps);
        var versions := Run(reqs, Start(reqs), steps).db.versions;
        if reqs[p].transition.to in versions {
          RequestedLabels(h, bodies, b.serviceId, b.toRef, b.format, b.spec.value, versions[reqs[p].transition.to]);
        }
      }
    }
  }

  lemma {:induction false} LostToFirst(reqs: Requests, p: nat, q: nat, text: string)
    requires p in reqs && q in reqs
    requires reqs[q].transition.from == reqs[p].transition.to && reqs[q].fromVersion.spec == None
    ensures exists steps :: !TextIsKept(reqs, Run(reqs, Start(reqs), steps).db, p, text)
  {
    FirstStatement(reqs, q);
    assert !TextIsKept(reqs, Run(reqs, Start(reqs), [(q, StoreFrom)]).db, p, text);
  }

  lemma {:induction false} LostToSecond(reqs: Requests, p: nat, q: nat, text: string)
    requires p in reqs && q in reqs && reqs[q].transition.from != reqs[q].transition.to
    requires reqs[q].transition.to == reqs[p].transition.to && reqs[q].toVersion.spec == None
    ensures exists steps :: !TextIsKept(reqs, Run(reqs, Start(reqs), steps).db, p, text)
  {
    FirstTwoStatements(reqs, q);
    assert !TextIsKept(reqs, Run(reqs, Start(reqs), [(q, StoreFrom), (q, StoreTo)]).db, p, text);
  }

  lemma SharedHead(h: Hashing, c: CreateBody, b: CreateBody)
    requires Ideal(h) && b.spec == Some(ReportIdentity(c.changes)) && Names(h, c, b.serviceId, b.toRef, b.format)
    ensures var x, y := CreateRequest(h, c).transition, CreateRequest(h, b).transition;
            if c.fromRef == b.toRef then x.from == y.to else x.from != x.to && x.to == y.to && c.spec == None
  {
    var text := ReportIdentity(c.changes);
    SnapshotIdsCollideExactly(h, c.serviceId, c.fromRef, c.format, text, b.serviceId, b.toRef, b.format, text);
    SnapshotIdsCollideExactly(h, c.serviceId, c.toRef, c.format, text, b.serviceId, b.toRef, b.format, text);
    SnapshotIdsCollideExactly(h, c.serviceId, c.fromRef, c.format, text, c.serviceId, c.toRef, c.format, text);
  }

  lemma {:induction false} ShadowLosesText(h: Hashing, bodies: map<nat, CreateBody>, p: nat)
    requires Ideal(h) && p in bodies && bodies[p].spec.Some? && Shadowed(h, bodies, p)
    ensures var reqs := CreateRequests(h, bodies);
            exists steps :: !TextIsKept(reqs, Run(reqs, Start(reqs), steps).db, p, bodies[p].spec.value)
  {
    var b := bodies[p];
    var q :| q in bodies && b.spec.value == ReportIdentity(bodies[q].changes)
             && Names(h, bodies[q], b.serviceId, b.toRef, b.format);
    SharedHead(h, bodies[q], b);
    if bodies[q].fromRef == b.toRef {
      LostToFirst(CreateRequests(h, bodies), p, q, b.spec.value);
    } else {
      LostToSecond(CreateRequests(h, bodies), p, q, b.spec.value);
    }
  }

  // ---------------------------------------------------------------------
  // Across the families
  // ---------------------------------------------------------------------

  // A compared base that spells out a report's fingerprint is taken for that
  // report, so the two families share a transition exactly then.
  lemma FamiliesCollideExactly(h: Hashing, engine: Engine, c: CreateBody, d: CompareBody)
    requires Ideal(h) && CompareRequest(h, engine, d).Some?
    ensures CreateRequest(h, c).transition == CompareRequest(h, engine, d).value.transition
       <==> && c.serviceId == d.serviceId && c.fromRef == d.baseRef && c.toRef == d.headRef
            && h.lower(c.format) == h.lower(d.format)
            && d.base == ReportIdentity(c.changes)
            && d.head == c.spec.GetOr(ReportIdentity(c.changes))
  {
    var x := ReportIdentity(c.changes);
    SnapshotIdsCollideExactly(h, c.serviceId, c.fromRef, c.format, x,
                                 d.serviceId, d.baseRef, h.lower(d.format), d.base);
    SnapshotIdsCollideExactly(h, c.serviceId, c.toRef, c.format, c.spec.GetOr(x),
                                 d.serviceId, d.headRef, h.lower(d.format), d.head);
  }

  // A request that runs alone stores its diff.
  lemma {:induction false} LoneRequestStores(reqs: Requests, p: nat, id: string)
    requires p in reqs
    ensures var s := Run(reqs, Start(reqs), [(p, StoreFrom), (p, StoreTo)] + [(p, Look), (p, Persist(id))]);
            && s.phases == Start(reqs).phases[p := Done(id)]
            && s.db.diffs == map[id := reqs[p].transition]
            && RowsOf(s.db.changes, id) == reqs[p].changes
  {
    var s0 := Start(reqs);
    var s1 := Step(reqs, s0, p, StoreFrom);
    var s2 := Step(reqs, s1, p, StoreTo);
    FirstTwo(reqs, s0, (p, StoreFrom), (p, StoreTo), [(p, Look), (p, Persist(id))]);
    RunOf2(reqs, s2, (p, Look), (p, Persist(id)));
    assert s2.db.diffs == map[] && s2.db.changes == [];
    RowsOfOwn(id, reqs[p].changes, id);
    assert [] + RowsFor(id, reqs[p].changes) == RowsFor(id, reqs[p].changes);
  }

  // One that comes second on the same transition is answered with that diff.
  lemma {:induction false} SecondRequestFinds(reqs: Requests, s: State, q: nat, id: string)
    requires q in reqs && q in s.phases && s.phases[q] == Begun
    requires s.db.diffs == map[id := reqs[q].transition]
    ensures var t := Run(reqs, s, [(q, StoreFrom), (q, StoreTo), (q, Look)]);
            && t.phases == s.phases[q := Done(id)]
            && t.db.diffs == s.db.diffs && t.db.changes == s.db.changes
  {
    RunOf3(reqs, s, (q, StoreFrom), (q, StoreTo), (q, Look));
    var s2 := Step(reqs, Step(reqs, s, q, StoreFrom), q, StoreTo);
    assert id in s2.db.diffs;
  }

  lemma {:induction false} OneAfterTheOther(reqs: Requests, p: nat, q: nat, id: string)
    returns (steps: seq<(nat, Action)>)
    requires p in reqs && q in reqs && p != q && reqs[p].transition == reqs[q].transition
    ensures var s := Run(reqs, Start(reqs), steps);
            && s.phases == Start(reqs).phases[p := Done(id)][q := Done(id)]
            && RowsOf(s.db.changes, id) == reqs[p].changes
  {
    var first := [(p, StoreFrom), (p, StoreTo)] + [(p, Look), (p, Persist(id))];
    var second := [(q, StoreFrom), (q, StoreTo), (q, Look)];
    LoneRequestStores(reqs, p, id);
    SecondRequestFinds(reqs, Run(reqs, Start(reqs), first), q, id);
    RunConcat(reqs, Start(reqs), first, second);
    steps := first + second;
  }

  // If the request has its answer, that holds the changes the request would have stored.
  ghost predicate Current(reqs: Requests, s: State, p: nat)
    requires p in reqs
  {
    p in s.phases && s.phases[p].Done? ==>
      multiset(RowsOf(s.db.changes, s.phases[p].id)) == multiset(reqs[p].changes)
  }

  ghost predicate AlwaysCurrent(reqs: Requests, p: nat)
    requires p in reqs
  {
    forall steps :: Current(reqs, Run(reqs, Start(reqs), steps), p)
  }

  // No run answers a request with other changes than its own exactly if all requests
  // for its transition agree about the changes.
  lemma {:induction false} CurrentExactly(reqs: Requests, p: nat)
    requires p in reqs
    ensures AlwaysCurrent(reqs, p) <==> Agreed(reqs, p)
  {
    if Agreed(reqs, p) {
      forall steps ensures Current(reqs, Run(reqs, Start(reqs), steps), p) {
        AnswersAreCurrent(reqs, steps, p);
      }
    } else {
      var q :| q in reqs && reqs[q].transition == reqs[p].transition
               && multiset(reqs[q].changes) != multiset(reqs[p].changes);
      var steps := OneAfterTheOther(reqs, q, p, "");
      assert !Current(reqs, Run(reqs, Start(reqs), steps), p);
    }
  }

  // Requests of both families side by side.
  datatype Body = Report(report: CreateBody) | Comparison(comparison: CompareBody)

  function BodyRequest(h: Hashing, engine: Engine, b: Body): Option<Request> {
    match b
    case Report(c) => Some(CreateRequest(h, c))
    case Comparison(d) => CompareRequest(h, engine, d)
  }

  // Those that get as far as the database.
  ghost function MixedRequests(h: Hashing, engine: Engine, bodies: map<nat, Body>): Requests {
    map p | p in bodies && BodyRequest(h, engine, bodies[p]).Some? :: BodyRequest(h, engine, bodies[p]).value
  }

  // The compared texts spell out the report, and the engine finds other changes in
  // them than the report lists.
  predicate SpellsOut(h: Hashing, engine: Engine, c: CreateBody, d: CompareBody) {
    && c.serviceId == d.serviceId && c.fromRef == d.baseRef && c.toRef == d.headRef
    && h.lower(c.format) == h.lower(d.format)
    && d.base == ReportIdentity(c.changes) && d.head == c.spec.GetOr(ReportIdentity(c.changes))
    && var found := engine(LanguageOf(h.lower(d.format)), d.base, d.head);
       found.Some? && multiset(found.value) != multiset(c.changes)
  }

  predicate Contradict(h: Hashing, engine: Engine, a: Body, b: Body) {
    match (a, b)
    case (Report(c), Comparison(d)) => SpellsOut(h, engine, c, d)
    case (Comparison(d), Report(c)) => SpellsOut(h, engine, c, d)
    case _ => false
  }

  lemma ContradictExactly(h: Hashing, engine: Engine, a: Body, b: Body)
    requires Ideal(h) && BodyRequest(h, engine, a).Some?
    ensures Contradict(h, engine, a, b)
       <==> && BodyRequest(h, engine, b).Some?
            && var x, y := BodyRequest(h, engine, a).value, BodyRequest(h, engine, b).value;
               x.transition == y.transition && multiset(x.changes) != multiset(y.changes)
  {
    if BodyRequest(h, engine, b).Some? {
      match (a, b)
      case (Report(c), Report(d)) => CreateTransitionsCollideExactly(h, c, d);
      case (Report(c), Comparison(d)) => FamiliesCollideExactly(h, engine, c, d);
      case (Comparison(d), Report(c)) => FamiliesCollideExactly(h, engine, c, d);
      case (Comparison(c), Comparison(d)) => CompareTransitionsCollideExactly(h, engine, c, d);
    }
  }

  // In any mixture of reports and comparisons, a request is always answered with its
  // own changes exactly if no request of the other family contradicts it.
  lemma {:induction false} MixedAnswerIsCurrentExactly(h: Hashing, engine: Engine, bodies: map<nat, Body>, p: nat)
    requires Ideal(h) && p in MixedRequests(h, engine, bodies)
    ensures AlwaysCurrent(MixedRequests(h, engine, bodies), p)
       <==> !exists q :: q in bodies && Contradict(h, engine, bodies[p], bodies[q])
  {
    var reqs := MixedRequests(h, engine, bodies);
    CurrentExactly(reqs, p);
    forall q | q in bodies
      ensures Contradict(h, engine, bodies[p], bodies[q])
         <==> q in reqs && reqs[q].transition == reqs[p].transition
              && multiset(reqs[q].changes) != multiset(reqs[p].changes)
    {
      ContradictExactly(h, engine, bodies[p], bodies[q]);
    }
    assert forall q :: q in reqs ==> q in bodies;
  }

  // No answer of any run is ever stale exactly if no report and comparison among the
  // requests contradict each other.
  lemma {:induction false} NeverStaleExactly(h: Hashing, engine: Engine, bodies: map<nat, Body>)
    requires Ideal(h)
    ensures var reqs := MixedRequests(h, engine, bodies);
            (forall p :: p in reqs ==> AlwaysCurrent(reqs, p))
            <==> !exists p, q :: p in bodies && q in bodies && bodies[p].Report? && bodies[q].Comparison?
                   && SpellsOut(h, engine, bodies[p].report, bodies[q].comparison)
  {
    var reqs := MixedRequests(h, engine, bodies);
    forall p | p in reqs
      ensures AlwaysCurrent(reqs, p) <==> !exists q :: q in bodies && Contradict(h, engine, bodies[p], bodies[q])
    {
      MixedAnswerIsCurrentExactly(h, engine, bodies, p);
    }
    if p, q :| p in bodies && q in bodies && bodies[p].Report? && bodies[q].Comparison?
               && SpellsOut(h, engine, bodies[p].report, bodies[q].comparison) {
      assert p in reqs && Contradict(h, engine, bodies[p], bodies[q]);
    }
  }
}
