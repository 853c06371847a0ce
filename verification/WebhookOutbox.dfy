/**
 * Webhook deliveries with retries, crashes and the startup sweep
 * (radar-api/src/webhooks.rs).
 *
 * Any number of workers, of any number of processes, share the delivery table.
 * A flag on a step tells whether its statement succeeded; apart from the first
 * insert the source only logs a failure.
 */
module WebhookOutbox {
  import opened Options

  // The pauses before the four attempts, in seconds.
  const DELAYS: seq<nat> := [0, 1, 4, 16]

  datatype Status = Pending | Delivered | Failed

  datatype Row = Row(webhook: string, status: Status, attempt: nat, error: Option<string>)

  // The answer to one send: a 2xx status, or anything else as an error text.
  datatype Reply = Accepted | Refused(text: string)

  datatype Phase =
    | Ready                     // about to send, or to give up after the last attempt
    | GotOk                     // about to mark the row as delivered
    | GotError(text: string)    // about to record a refused attempt
    | Stopped                   // returned, or went down with its process

  datatype Worker = Worker(id: string, phase: Phase, refused: nat, accepted: nat, lastError: Option<string>)

  datatype State = State(
    webhooks: set<string>,
    rows: map<string, Row>,
    workers: seq<Worker>,
    persisted: set<string>,      // every id ever inserted
    sends: seq<string>)          // the ids sent, in order

  // ---------------------------------------------------------------------
  // Statements on the table
  // ---------------------------------------------------------------------

  type Table = map<string, Row>

  function MarkDelivered(t: Table, id: string, attempt: nat): Table {
    if id in t then t[id := t[id].(status := Delivered, attempt := attempt)] else t
  }

  function MarkAttempt(t: Table, id: string, attempt: nat, error: Option<string>): Table {
    if id in t then t[id := t[id].(attempt := attempt, error := error)] else t
  }

  function MarkFailed(t: Table, id: string, error: Option<string>): Table {
    if id in t then t[id := t[id].(status := Failed, error := error)] else t
  }

  // ---------------------------------------------------------------------
  // Steps
  // ---------------------------------------------------------------------

  datatype Event =
    | Dispatch(id: string, webhook: string, inserted: bool, guardPasses: bool)
    | Send(w: nat, reply: Reply)
    | Record(w: nat, ok: bool)
    | GiveUp(w: nat, ok: bool)
    | Crash(lost: set<nat>)
    | Sweep(ids: seq<string>, reachable: set<string>)
    | DeleteWebhook(webhook: string)

  function Sent(worker: Worker): nat {
    worker.refused + worker.accepted
  }

  function NewWorker(id: string, guardPasses: bool): Worker {
    Worker(id, if guardPasses then Ready else Stopped, 0, 0, None)
  }

  // The rows the sweep selects: pending, and their webhook still exists.
  predicate Sweepable(s: State, id: string) {
    id in s.rows && s.rows[id].status == Pending && s.rows[id].webhook in s.webhooks
  }

  ghost predicate SweepsAll(s: State, ids: seq<string>) {
    && (forall id :: id in ids <==> Sweepable(s, id))
    && (forall i, j :: 0 <= i < j < |ids| ==> ids[i] != ids[j])
  }

  function StopWorkers(workers: seq<Worker>, lost: set<nat>): seq<Worker> {
    seq(|workers|, i requires 0 <= i < |workers| =>
      if i in lost then workers[i].(phase := Stopped) else workers[i])
  }

  ghost function Step(s: State, e: Event): State {
    match e
    case Dispatch(id, webhook, inserted, guardPasses) =>
      if !inserted || webhook !in s.webhooks || id in s.persisted then s
      else s.(rows := s.rows[id := Row(webhook, Pending, 0, None)],
              persisted := s.persisted + {id},
              workers := s.workers + [NewWorker(id, guardPasses)])
    case Send(w, reply) =>
      if w >= |s.workers| || s.workers[w].phase != Ready || Sent(s.workers[w]) >= |DELAYS| then s
      else
        var worker := s.workers[w];
        s.(sends := s.sends + [worker.id],
           workers := s.workers[w :=
             match reply
             case Accepted => worker.(phase := GotOk, accepted := worker.accepted + 1)
             case Refused(text) =>
                worker.(phase := GotError(text), refused := worker.refused + 1, lastError := Some(text))])
    case Record(w, ok) =>
      if w >= |s.workers| then s
      else
        var worker := s.workers[w];
        (match worker.phase
         case GotOk =>
           s.(rows := if ok then MarkDelivered(s.rows, worker.id, Sent(worker)) else s.rows,
              workers := s.workers[w := worker.(phase := Stopped)])
         case GotError(_) =>
           s.(rows := if ok then MarkAttempt(s.rows, worker.id, Sent(worker), worker.lastError) else s.rows,
              workers := s.workers[w := worker.(phase := Ready)])
         case _ => s)
    case GiveUp(w, ok) =>
      if w >= |s.workers| || s.workers[w].phase != Ready || Sent(s.workers[w]) < |DELAYS| then s
      else
        var worker := s.workers[w];
        s.(rows := if ok then MarkFailed(s.rows, worker.id, worker.lastError) else s.rows,
           workers := s.workers[w := worker.(phase := Stopped)])
    case Crash(lost) => s.(workers := StopWorkers(s.workers, lost))
    case Sweep(ids, reachable) =>
      if !SweepsAll(s, ids) then s
      else s.(workers := s.workers
        + seq(|ids|, i requires 0 <= i < |ids| => NewWorker(ids[i], ids[i] in reachable)))
    case DeleteWebhook(webhook) =>
      s.(webhooks := s.webhooks - {webhook},
         rows := map id | id in s.rows && s.rows[id].webhook != webhook :: s.rows[id])
  }

  ghost function Run(s: State, events: seq<Event>): State
    decreases |events|
  {
    if events == [] then s else Run(Step(s, events[0]), events[1..])
  }

  function Start(webhooks: set<string>): State {
    State(webhooks, map[], [], {}, [])
  }

  lemma {:induction false} RunConcat(s: State, a: seq<Event>, b: seq<Event>)
    ensures Run(s, a + b) == Run(Run(s, a), b)
    decreases |a|
  {
    if a == [] {
      assert a + b == b;
    } else {
      assert (a + b)[0] == a[0] && (a + b)[1..] == a[1..] + b;
      RunConcat(Step(s, a[0]), a[1..], b);
    }
  }

  lemma {:induction false} RunThen(s: State, a: seq<Event>, e: Event)
    ensures Run(s, a + [e]) == Step(Run(s, a), e)
  {
    RunConcat(s, a, [e]);
    assert [e][1..] == [];
  }

  // ---------------------------------------------------------------------
  // The invariant
  // ---------------------------------------------------------------------

  ghost predicate WorkerOk(s: State, worker: Worker) {
    && worker.id in s.persisted
    && worker.accepted <= 1 && Sent(worker) <= |DELAYS|
    && (worker.phase == Ready || worker.phase.GotError? ==> worker.accepted == 0)
    && (worker.phase == GotOk ==> worker.accepted == 1)
  }

  ghost predicate AcceptedBySome(s: State, id: string) {
    exists w :: 0 <= w < |s.workers| && s.workers[w].id == id && s.workers[w].accepted == 1
  }

  ghost predicate RefusedToSome(s: State, id: string) {
    exists w :: 0 <= w < |s.workers| && s.workers[w].id == id
                && s.workers[w].refused == |DELAYS| && s.workers[w].accepted == 0
  }

  ghost predicate RowOk(s: State, id: string)
    requires id in s.rows
  {
    && id in s.persisted
    && s.rows[id].attempt <= |DELAYS|
    && (s.rows[id].status == Delivered ==> AcceptedBySome(s, id))
    && (s.rows[id].status == Failed ==> RefusedToSome(s, id))
  }

  // Sends of one delivery, and what its workers sent.
  function SendsOf(sends: seq<string>, id: string): nat {
    if sends == [] then 0
    else SendsOf(sends[..|sends| - 1], id) + if sends[|sends| - 1] == id then 1 else 0
  }

  function SentFor(workers: seq<Worker>, id: string): nat {
    if workers == [] then 0
    else SentFor(workers[..|workers| - 1], id)
         + if workers[|workers| - 1].id == id then Sent(workers[|workers| - 1]) else 0
  }

  function DispatchesOf(workers: seq<Worker>, id: string): nat {
    if workers == [] then 0
    else DispatchesOf(workers[..|workers| - 1], id) + if workers[|workers| - 1].id == id then 1 else 0
  }

  ghost predicate Inv(s: State) {
    && (forall w :: 0 <= w < |s.workers| ==> WorkerOk(s, s.workers[w]))
    && (forall id :: id in s.rows ==> RowOk(s, id))
    && (forall id :: Counted(s, id))
  }

  // What other parties may do to a worker: nothing takes a reply back.
  ghost predicate Follows(before: Worker, after: Worker) {
    && after.id == before.id
    && after.accepted >= before.accepted
    && (before.accepted == 0 && before.refused == |DELAYS| ==> after.accepted == 0 && after.refused == |DELAYS|)
  }

  ghost predicate WorkersFollow(s: State, t: State) {
    |s.workers| <= |t.workers| && forall w :: 0 <= w < |s.workers| ==> Follows(s.workers[w], t.workers[w])
  }

  lemma StepFollows(s: State, e: Event)
    ensures WorkersFollow(s, Step(s, e))
    ensures s.persisted <= Step(s, e).persisted
  {
  }

  lemma EvidenceStays(s: State, t: State, id: string)
    requires WorkersFollow(s, t) && forall w :: 0 <= w < |t.workers| ==> WorkerOk(t, t.workers[w])
    ensures AcceptedBySome(s, id) ==> AcceptedBySome(t, id)
    ensures RefusedToSome(s, id) ==> RefusedToSome(t, id)
  {
  }

  lemma StepKeepsWorkers(s: State, e: Event)
    requires forall w :: 0 <= w < |s.workers| ==> WorkerOk(s, s.workers[w])
    requires forall id :: id in s.rows ==> id in s.persisted
    ensures var t := Step(s, e); forall w :: 0 <= w < |t.workers| ==> WorkerOk(t, t.workers[w])
  {
    var t := Step(s, e);
    forall w | 0 <= w < |t.workers| ensures WorkerOk(t, t.workers[w]) {
      if w < |s.workers| {
        assert WorkerOk(s, s.workers[w]);
      } else if e.Sweep? {
        assert t.workers[w].id == e.ids[w - |s.workers|] && e.ids[w - |s.workers|] in e.ids;
      }
    }
  }

  lemma StepKeepsRows(s: State, e: Event)
    requires Inv(s)
    ensures var t := Step(s, e); forall id :: id in t.rows ==> RowOk(t, id)
  {
    var t := Step(s, e);
    StepFollows(s, e);
    StepKeepsWorkers(s, e);
    forall id | id in t.rows ensures RowOk(t, id) {
      if id in s.rows {
        assert RowOk(s, id);
        EvidenceStays(s, t, id);
      }
      if e.Record? && e.w < |s.workers| && s.workers[e.w].id == id {
        assert WorkerOk(s, s.workers[e.w]) && Follows(s.workers[e.w], t.workers[e.w]);
      }
      if e.GiveUp? && e.w < |s.workers| && s.workers[e.w].id == id {
        assert WorkerOk(s, s.workers[e.w]) && Follows(s.workers[e.w], t.workers[e.w]);
      }
    }
  }

  // ---------------------------------------------------------------------
  // Counting sends
  // ---------------------------------------------------------------------

  lemma {:induction false} SentForConcat(a: seq<Worker>, b: seq<Worker>, id: string)
    ensures SentFor(a + b, id) == SentFor(a, id) + SentFor(b, id)
    ensures DispatchesOf(a + b, id) == DispatchesOf(a, id) + DispatchesOf(b, id)
    decreases |b|
  {
    if b == [] {
      assert a + b == a;
    } else {
      assert (a + b)[..|a + b| - 1] == a + b[..|b| - 1];
      SentForConcat(a, b[..|b| - 1], id);
    }
  }

  lemma SentForUpdate(workers: seq<Worker>, w: nat, x: Worker, id: string)
    requires w < |workers| && x.id == workers[w].id
    ensures SentFor(workers[w := x], id)
         == SentFor(workers, id) + if x.id == id then Sent(x) - Sent(workers[w]) else 0
    ensures DispatchesOf(workers[w := x], id) == DispatchesOf(workers, id)
  {
    var a, b := workers[..w], workers[w + 1..];
    var old1, new1 := [workers[w]], [x];
    assert workers == a + old1 + b && workers[w := x] == a + new1 + b;
    SentForConcat(a + old1, b, id);
    SentForConcat(a, old1, id);
    SentForConcat(a + new1, b, id);
    SentForConcat(a, new1, id);
    assert old1[..0] == [] && new1[..0] == [];
  }

  lemma {:induction false} SentForIdle(workers: seq<Worker>, id: string)
    requires forall w :: 0 <= w < |workers| ==> Sent(workers[w]) == 0
    ensures SentFor(workers, id) == 0
  {
    if workers != [] {
      SentForIdle(workers[..|workers| - 1], id);
    }
  }

  lemma {:induction false} SentForStopped(workers: seq<Worker>, lost: set<nat>, id: string)
    ensures SentFor(StopWorkers(workers, lost), id) == SentFor(workers, id)
    ensures DispatchesOf(StopWorkers(workers, lost), id) == DispatchesOf(workers, id)
  {
    if workers != [] {
      var init := workers[..|workers| - 1];
      SentForStopped(init, lost, id);
      assert StopWorkers(workers, lost)[..|workers| - 1] == StopWorkers(init, lost);
    }
  }

  lemma {:induction false} SentForBound(workers: seq<Worker>, id: string)
    requires forall w :: 0 <= w < |workers| ==> Sent(workers[w]) <= |DELAYS|
    ensures SentFor(workers, id) <= |DELAYS| * DispatchesOf(workers, id)
  {
    if workers != [] {
      SentForBound(workers[..|workers| - 1], id);
    }
  }

  ghost predicate Counted(s: State, id: string) {
    SendsOf(s.sends, id) == SentFor(s.workers, id)
  }

  lemma SendKeepsCount(s: State, w: nat, reply: Reply, id: string)
    requires Counted(s, id)
    ensures Counted(Step(s, Send(w, reply)), id)
  {
    var t := Step(s, Send(w, reply));
    if t != s {
      var x := t.workers[w];
      assert t.workers == s.workers[w := x] && x.id == s.workers[w].id && Sent(x) == Sent(s.workers[w]) + 1;
      SentForUpdate(s.workers, w, x, id);
      assert t.sends[..|t.sends| - 1] == s.sends;
    }
  }

  lemma UpdateKeepsCount(s: State, e: Event, id: string)
    requires Counted(s, id) && (e.Record? || e.GiveUp?)
    ensures Counted(Step(s, e), id)
  {
    var t := Step(s, e);
    if e.w < |s.workers| {
      var x := t.workers[e.w];
      assert t.workers == s.workers[e.w := x] && x.id == s.workers[e.w].id && Sent(x) == Sent(s.workers[e.w]);
      SentForUpdate(s.workers, e.w, x, id);
    }
  }

  lemma StepKeepsCount(s: State, e: Event, id: string)
    requires Counted(s, id)
    ensures Counted(Step(s, e), id)
  {
    match e
    case Dispatch(d, webhook, inserted, passes) =>
      SentForConcat(s.workers, [NewWorker(d, passes)], id);
      SentForIdle([NewWorker(d, passes)], id);
    case Sweep(ids, reachable) =>
      var added := seq(|ids|, i requires 0 <= i < |ids| => NewWorker(ids[i], ids[i] in reachable));
      SentForConcat(s.workers, added, id);
      SentForIdle(added, id);
    case Crash(lost) => SentForStopped(s.workers, lost, id);
    case DeleteWebhook(_) =>
    case Send(w, reply) => SendKeepsCount(s, w, reply, id);
    case Record(w, ok) => UpdateKeepsCount(s, e, id);
    case GiveUp(w, ok) => UpdateKeepsCount(s, e, id);
  }

  lemma StepKeepsInv(s: State, e: Event)
    requires Inv(s)
    ensures Inv(Step(s, e))
  {
    forall id | id in s.rows ensures id in s.persisted {
      assert RowOk(s, id);
    }
    StepKeepsWorkers(s, e);
    StepKeepsRows(s, e);
    forall id ensures Counted(Step(s, e), id) {
      StepKeepsCount(s, e, id);
    }
  }

  lemma {:induction false} RunKeepsInv(s: State, events: seq<Event>)
    requires Inv(s)
    ensures Inv(Run(s, events))
    decreases |events|
  {
    if events != [] {
      StepKeepsInv(s, events[0]);
      RunKeepsInv(Step(s, events[0]), events[1..]);
    }
  }

  lemma {:induction false} RunIsOk(webhooks: set<string>, events: seq<Event>)
    ensures Inv(Run(Start(webhooks), events))
  {
    RunKeepsInv(Start(webhooks), events);
  }

  // ---------------------------------------------------------------------
  // What holds in every run
  // ---------------------------------------------------------------------

  lemma {:induction false} SenderExists(workers: seq<Worker>, id: string)
    requires SentFor(workers, id) > 0
    ensures exists w :: 0 <= w < |workers| && workers[w].id == id
  {
    var last := |workers| - 1;
    if workers[last].id != id {
      SenderExists(workers[..last], id);
      var w :| 0 <= w < last && workers[..last][w].id == id;
      assert workers[w].id == id;
    }
  }

  lemma {:induction false} SendIsCounted(sends: seq<string>, id: string)
    requires id in sends
    ensures SendsOf(sends, id) > 0
  {
    var last := |sends| - 1;
    if sends[last] != id {
      assert sends == sends[..last] + [sends[last]];
      SendIsCounted(sends[..last], id);
    }
  }

  // Nothing is sent before its row has been inserted.
  lemma {:induction false} SentOnlyWhenPersisted(webhooks: set<string>, events: seq<Event>)
    ensures var s := Run(Start(webhooks), events); forall id :: id in s.sends ==> id in s.persisted
  {
    RunIsOk(webhooks, events);
    var s := Run(Start(webhooks), events);
    forall id | id in s.sends ensures id in s.persisted {
      SendIsCounted(s.sends, id);
      assert Counted(s, id);
      SenderExists(s.workers, id);
    }
  }

  // A delivered row was answered with a 2xx status, a failed one was refused
  // four times by one and the same worker.
  lemma {:induction false} StatusIsTrue(webhooks: set<string>, events: seq<Event>, id: string)
    requires id in Run(Start(webhooks), events).rows
    ensures var s := Run(Start(webhooks), events);
            && (s.rows[id].status == Delivered ==> AcceptedBySome(s, id))
            && (s.rows[id].status == Failed ==> RefusedToSome(s, id))
            && s.rows[id].attempt <= 4
  {
    RunIsOk(webhooks, events);
  }

  // At most four sends for every time a delivery was taken up.
  lemma {:induction false} SendsAreBounded(webhooks: set<string>, events: seq<Event>, id: string)
    ensures var s := Run(Start(webhooks), events);
            SendsOf(s.sends, id) <= 4 * DispatchesOf(s.workers, id)
  {
    RunIsOk(webhooks, events);
    var s := Run(Start(webhooks), events);
    forall w | 0 <= w < |s.workers| ensures Sent(s.workers[w]) <= |DELAYS| {
      assert WorkerOk(s, s.workers[w]);
    }
    assert Counted(s, id);
    SentForBound(s.workers, id);
  }

  lemma {:induction false} NewDispatches(ids: seq<string>, reachable: set<string>, id: string)
    requires forall i, j :: 0 <= i < j < |ids| ==> ids[i] != ids[j]
    ensures DispatchesOf(seq(|ids|, i requires 0 <= i < |ids| => NewWorker(ids[i], ids[i] in reachable)), id)
         == if id in ids then 1 else 0
  {
    if ids != [] {
      var init := ids[..|ids| - 1];
      var added := seq(|ids|, i requires 0 <= i < |ids| => NewWorker(ids[i], ids[i] in reachable));
      NewDispatches(init, reachable, id);
      assert ids == init + [ids[|ids| - 1]];
      assert added[..|ids| - 1] == seq(|init|, i requires 0 <= i < |init| => NewWorker(init[i], init[i] in reachable));
    }
  }

  // A sweep takes up every pending row of an existing webhook once, and no
  // other row; the worker starts sending when the URL passes the guard.
  lemma {:induction false} SweepTakesUpPending(s: State, ids: seq<string>, reachable: set<string>, id: string)
    requires SweepsAll(s, ids)
    ensures var t := Step(s, Sweep(ids, reachable));
            && DispatchesOf(t.workers, id) == DispatchesOf(s.workers, id) + (if Sweepable(s, id) then 1 else 0)
            && ((exists w :: |s.workers| <= w < |t.workers| && t.workers[w] == Worker(id, Ready, 0, 0, None))
                <==> Sweepable(s, id) && id in reachable)
  {
    var added := seq(|ids|, i requires 0 <= i < |ids| => NewWorker(ids[i], ids[i] in reachable));
    SentForConcat(s.workers, added, id);
    NewDispatches(ids, reachable, id);
    SweepStarts(s, ids, reachable, id);
  }

  lemma SweepStarts(s: State, ids: seq<string>, reachable: set<string>, id: string)
    requires SweepsAll(s, ids)
    ensures var t := Step(s, Sweep(ids, reachable));
            (exists w :: |s.workers| <= w < |t.workers| && t.workers[w] == Worker(id, Ready, 0, 0, None))
            <==> Sweepable(s, id) && id in reachable
  {
    var t := Step(s, Sweep(ids, reachable));
    if Sweepable(s, id) && id in reachable {
      var i :| 0 <= i < |ids| && ids[i] == id;
      assert t.workers[|s.workers| + i] == Worker(id, Ready, 0, 0, None);
    }
    if w :| |s.workers| <= w < |t.workers| && t.workers[w] == Worker(id, Ready, 0, 0, None) {
      assert t.workers[w] == NewWorker(ids[w - |s.workers|], ids[w - |s.workers|] in reachable);
    }
  }

  // ---------------------------------------------------------------------
  // Delivered is not the end
  // ---------------------------------------------------------------------

  // Some worker of the delivery can still be refused.
  ghost predicate MayStillFail(s: State, id: string) {
    exists w :: 0 <= w < |s.workers| && s.workers[w].id == id
      && (s.workers[w].phase == Ready || s.workers[w].phase.GotError?)
  }

  ghost predicate Settled(s: State, id: string) {
    && id in s.persisted && !MayStillFail(s, id)
    && (id in s.rows ==> s.rows[id].status == Delivered)
  }

  lemma StepKeepsSettled(s: State, e: Event, id: string)
    requires Settled(s, id)
    ensures Settled(Step(s, e), id)
  {
    var t := Step(s, e);
    if e.Sweep? && SweepsAll(s, e.ids) {
      assert id !in e.ids;
      assert forall k :: 0 <= k < |e.ids| ==> e.ids[k] != id;
    }
    forall w | 0 <= w < |t.workers| && t.workers[w].id == id
      ensures t.workers[w].phase != Ready && !t.workers[w].phase.GotError?
    {
      if w < |s.workers| {
        assert s.workers[w].id == id;
      }
    }
  }

  lemma {:induction false} SettledStays(s: State, events: seq<Event>, id: string)
    requires Settled(s, id)
    ensures Settled(Run(s, events), id)
    decreases |events|
  {
    if events != [] {
      StepKeepsSettled(s, events[0], id);
      SettledStays(Step(s, events[0]), events[1..], id);
    }
  }

  // Refusals alone bring a live worker to mark its row as failed.
  lemma {:induction false} CanStillFail(s: State, w: nat) returns (events: seq<Event>)
    requires w < |s.workers| && s.workers[w].id in s.rows && Sent(s.workers[w]) <= |DELAYS|
    requires s.workers[w].phase == Ready || s.workers[w].phase.GotError?
    ensures var id := s.workers[w].id; id in Run(s, events).rows && Run(s, events).rows[id].status == Failed
    decreases |DELAYS| - Sent(s.workers[w]), s.workers[w].phase.GotError?
  {
    var e :=
      if s.workers[w].phase.GotError? then Record(w, true)
      else if Sent(s.workers[w]) < |DELAYS| then Send(w, Refused(""))
      else GiveUp(w, true);
    if e.GiveUp? {
      events := [e];
      assert [e][1..] == [];
    } else {
      var rest := CanStillFail(Step(s, e), w);
      events := [e] + rest;
      assert events[1..] == rest;
    }
  }

  // A delivered row can turn into a failed one exactly while another worker of
  // the same delivery is still trying.
  lemma {:induction false} DeliveredCanFailExactly(webhooks: set<string>, events: seq<Event>, id: string)
    requires var s := Run(Start(webhooks), events); id in s.rows && s.rows[id].status == Delivered
    ensures MayStillFail(Run(Start(webhooks), events), id)
       <==> exists later :: var t := Run(Run(Start(webhooks), events), later);
              id in t.rows && t.rows[id].status == Failed
  {
    RunIsOk(webhooks, events);
    var s := Run(Start(webhooks), events);
    if MayStillFail(s, id) {
      var w :| 0 <= w < |s.workers| && s.workers[w].id == id
               && (s.workers[w].phase == Ready || s.workers[w].phase.GotError?);
      assert WorkerOk(s, s.workers[w]);
      var later := CanStillFail(s, w);
      assert Run(s, later).rows[id].status == Failed;
    } else {
      assert RowOk(s, id);
      forall later ensures id in Run(s, later).rows ==> Run(s, later).rows[id].status == Delivered {
        SettledStays(s, later, id);
      }
    }
  }

  // A sweep that runs while a first delivery is under way gets there.
  lemma SweepCanOverlapDelivery(webhook: string, id: string)
    ensures exists events, later ::
      var s := Run(Start({webhook}), events); var t := Run(s, later);
      && id in s.rows && s.rows[id].status == Delivered
      && id in t.rows && t.rows[id].status == Failed
  {
    var ready := Worker(id, Ready, 0, 0, None);
    var s0 := Start({webhook});
    var s2 := State({webhook}, map[id := Row(webhook, Pending, 0, None)], [ready, ready], {id}, []);
    var a, b := [Dispatch(id, webhook, true, true), Sweep([id], {id})], [Send(0, Accepted), Record(0, true)];
    SweptAtOnce(webhook, id);
    TwoSteps(s0, Dispatch(id, webhook, true, true), Sweep([id], {id}), b);
    TwoSteps(s2, Send(0, Accepted), Record(0, true), []);
    assert b + [] == b;
    var s4 := s2.(workers := [ready.(phase := Stopped, accepted := 1), ready],
                  rows := map[id := Row(webhook, Delivered, 1, None)],
                  sends := [id]);
    FirstIsDelivered(webhook, id);
    assert Run(s0, a + b) == s4;
    var later := CanStillFail(s4, 1);
    assert Run(s0, a + b).rows[id].status == Delivered && Run(s4, later).rows[id].status == Failed;
  }

  lemma SweptAtOnce(webhook: string, id: string)
    ensures var ready := Worker(id, Ready, 0, 0, None);
            Step(Step(Start({webhook}), Dispatch(id, webhook, true, true)), Sweep([id], {id}))
            == State({webhook}, map[id := Row(webhook, Pending, 0, None)], [ready, ready], {id}, [])
  {
  }

  lemma FirstIsDelivered(webhook: string, id: string)
    ensures var ready := Worker(id, Ready, 0, 0, None);
            Step(Step(State({webhook}, map[id := Row(webhook, Pending, 0, None)], [ready, ready], {id}, []),
                      Send(0, Accepted)), Record(0, true))
            == State({webhook}, map[id := Row(webhook, Delivered, 1, None)],
                     [ready.(phase := Stopped, accepted := 1), ready], {id}, [id])
  {
  }

  // ---------------------------------------------------------------------
  // The delivery loop as code
  // ---------------------------------------------------------------------

  class DeliveryTable {
    var rows: map<string, Row>

    constructor ()
      ensures rows == map[]
    {
      rows := map[];
    }

    method InsertPending(id: string, webhook: string, ok: bool) returns (inserted: bool)
      modifies this
      ensures inserted == (ok && id !in old(rows))
      ensures rows == if inserted then old(rows)[id := Row(webhook, Pending, 0, None)] else old(rows)
    {
      inserted := ok && id !in rows;
      if inserted {
        rows := rows[id := Row(webhook, Pending, 0, None)];
      }
    }

    // UPDATE ... WHERE id = ?: nothing happens to a row that is gone.
    method Update(id: string, status: Option<Status>, attempt: Option<nat>, error: Option<Option<string>>)
      modifies this
      ensures rows == if id !in old(rows) then old(rows) else
                var r := old(rows)[id];
                old(rows)[id := Row(r.webhook, status.GetOr(r.status), attempt.GetOr(r.attempt), error.GetOr(r.error))]
    {
      if id in rows {
        var r := rows[id];
        rows := rows[id := Row(r.webhook, status.GetOr(r.status), attempt.GetOr(r.attempt), error.GetOr(r.error))];
      }
    }

    // One send and the update that follows it; `next` is where the machine is then.
    method Attempt(id: string, attempt: nat, replies: nat -> Reply, ok: nat -> bool, ghost s: State, ghost w: nat)
      returns (ghost next: State)
      requires attempt < 4 && s.rows == rows
      requires w < |s.workers| && s.workers[w].id == id && s.workers[w].phase == Ready
      requires s.workers[w].refused == attempt && s.workers[w].accepted == 0
      modifies this
      ensures Attempted(s, w, replies(attempt), next) && next.rows == rows
      ensures Run(s, WorkerEvents(w, replies, ok, attempt)) == Run(next, WorkerEventsAfter(w, replies, ok, attempt))
    {
      match replies(attempt) {
        case Accepted =>
          if ok(attempt) {
            Update(id, Some(Delivered), Some(attempt + 1), None);
          }
        case Refused(text) =>
          if ok(attempt) {
            Update(id, None, Some(attempt + 1), Some(Some(text)));
          }
      }
      next := OneAttempt(s, w, replies, ok, attempt);
    }

    // One worker that nobody interferes with: `replies` are the answers to its
    // sends, `ok` says which of its updates succeed. What it does to the table
    // is what its steps do to it in the machine above.
    method RunDeliveryAttempts(id: string, replies: nat -> Reply, ok: nat -> bool, ghost s: State, ghost w: nat)
      returns (delivered: bool, lastError: Option<string>, sends: nat)
      requires s.rows == rows && w < |s.workers| && s.workers[w] == Worker(id, Ready, 0, 0, None)
      modifies this
      ensures 1 <= sends <= 4 && (forall k: nat :: k < sends - 1 ==> replies(k).Refused?)
      ensures delivered ==> replies(sends - 1).Accepted? && lastError == None
      ensures !delivered ==> sends == 4 && replies(3).Refused? && lastError == Some(replies(3).text)
      ensures rows == Run(s, WorkerEvents(w, replies, ok, 0)).rows
    {
      lastError := None;
      ghost var cur := s;
      for attempt := 0 to 4
        invariant cur.rows == rows && w < |cur.workers|
        invariant cur.workers[w] == Worker(id, Ready, attempt, 0, lastError)
        invariant forall k: nat :: k < attempt ==> replies(k).Refused?
        invariant lastError == if attempt == 0 then None else Some(replies(attempt - 1).text)
        invariant Run(s, WorkerEvents(w, replies, ok, 0)) == Run(cur, WorkerEvents(w, replies, ok, attempt))
      {
        var reply := replies(attempt);
        ghost var next := Attempt(id, attempt, replies, ok, cur, w);
        match reply {
          case Accepted =>
            assert Run(next, []) == next;
            return true, None, attempt + 1;
          case Refused(text) =>
            lastError := Some(text);
        }
        cur := next;
      }
      if ok(4) {
        Update(id, Some(Failed), None, Some(lastError));
      }
      OnlyGiveUp(cur, w, replies, ok);
      return false, lastError, 4;
    }

    // What the startup sweep loads, each row once.
    method PendingDeliveries(webhooks: set<string>, ghost s: State) returns (ids: seq<string>)
      requires s.rows == rows && s.webhooks == webhooks
      ensures SweepsAll(s, ids)
    {
      ids := [];
      var left := rows.Keys;
      while left != {}
        invariant left <= rows.Keys
        invariant forall id :: id in ids <==> Sweepable(s, id) && id !in left
        invariant forall i, j :: 0 <= i < j < |ids| ==> ids[i] != ids[j]
        decreases left
      {
        var id :| id in left;
        left := left - {id};
        if rows[id].status == Pending && rows[id].webhook in webhooks {
          ids := ids + [id];
        }
      }
    }

    // A new delivery: the row first, then the attempts, unless the row cannot be
    // inserted or the URL does not pass the guard.
    method DeliverWebhookEvent(id: string, webhook: string, inserts: bool, guardPasses: bool,
                               replies: nat -> Reply, ok: nat -> bool, ghost s: State)
      returns (delivered: Option<bool>)
      requires s.rows == rows && webhook in s.webhooks && id !in s.persisted && rows.Keys <= s.persisted
      modifies this
      ensures delivered.Some? <==> inserts && guardPasses
      ensures rows == Run(s, [Dispatch(id, webhook, inserts, guardPasses)]
                             + if inserts && guardPasses then WorkerEvents(|s.workers|, replies, ok, 0) else []).rows
    {
      var inserted := InsertPending(id, webhook, inserts);
      ghost var first := Dispatch(id, webhook, inserts, guardPasses);
      ghost var next := Step(s, first);
      OneStep(s, first, if inserts && guardPasses then WorkerEvents(|s.workers|, replies, ok, 0) else []);
      if !inserted || !guardPasses {
        return None;
      }
      var outcome, _, _ := RunDeliveryAttempts(id, replies, ok, next, |s.workers|);
      return Some(outcome);
    }
  }

  // What one attempt means for its worker.
  ghost predicate Attempted(s: State, w: nat, reply: Reply, next: State)
    requires w < |s.workers|
  {
    && |next.workers| == |s.workers|
    && (reply.Refused? ==>
          next.workers[w] == s.workers[w].(refused := s.workers[w].refused + 1, lastError := Some(reply.text)))
    && (reply.Accepted? ==> next.workers[w].phase == Stopped)
  }

  // What it means for the table if its update succeeds.
  ghost predicate Recorded(s: State, id: string, reply: Reply, next: State) {
    && next.rows.Keys == s.rows.Keys
    && (reply.Accepted? && id in s.rows ==> next.rows[id].status == Delivered)
    && forall other :: other in s.rows && other != id ==> next.rows[other] == s.rows[other]
  }

  lemma OneAttempt(s: State, w: nat, replies: nat -> Reply, ok: nat -> bool,
      k: nat) returns (next: State)
    requires k < 4 && w < |s.workers|
    requires s.workers[w].phase == Ready && s.workers[w].refused == k && s.workers[w].accepted == 0
    ensures Run(s, WorkerEvents(w, replies, ok, k)) == Run(next, WorkerEventsAfter(w, replies, ok, k))
    ensures Attempted(s, w, replies(k), next)
    ensures next.rows == if !ok(k) then s.rows else
              (match replies(k)
               case Accepted => MarkDelivered(s.rows, s.workers[w].id, k + 1)
               case Refused(text) => MarkAttempt(s.rows, s.workers[w].id, k + 1, Some(text)))
    ensures ok(k) ==> Recorded(s, s.workers[w].id, replies(k), next)
  {
    next := Step(Step(s, Send(w, replies(k))), Record(w, ok(k)));
    TwoSteps(s, Send(w, replies(k)), Record(w, ok(k)), WorkerEventsAfter(w, replies, ok, k));
  }

  lemma {:induction false} OnlyGiveUp(s: State, w: nat, replies: nat -> Reply, ok: nat -> bool)
    requires w < |s.workers| && s.workers[w].phase == Ready && Sent(s.workers[w]) == 4
    ensures Run(s, WorkerEvents(w, replies, ok, 4)).rows
         == if ok(4) then MarkFailed(s.rows, s.workers[w].id, s.workers[w].lastError) else s.rows
    ensures var t := Run(s, WorkerEvents(w, replies, ok, 4)); w < |t.workers| && t.workers[w].phase == Stopped
  {
  }

  // The events of a worker from its `k`-th attempt on.
  function WorkerEvents(w: nat, replies: nat -> Reply, ok: nat -> bool, k: nat): seq<Event>
    requires k <= 4
    decreases 4 - k, 1
  {
    if k == 4 then [GiveUp(w, ok(4))]
    else [Send(w, replies(k)), Record(w, ok(k))] + WorkerEventsAfter(w, replies, ok, k)
  }

  function WorkerEventsAfter(w: nat, replies: nat -> Reply, ok: nat -> bool, k: nat): seq<Event>
    requires k < 4
    decreases 4 - k, 0
  {
    if replies(k).Accepted? then [] else WorkerEvents(w, replies, ok, k + 1)
  }

  lemma {:induction false} OneStep(s: State, a: Event, rest: seq<Event>)
    ensures Run(s, [a] + rest) == Run(Step(s, a), rest)
  {
  }

  lemma {:induction false} TwoSteps(s: State, a: Event, b: Event, rest: seq<Event>)
    ensures Run(s, [a, b] + rest) == Run(Step(Step(s, a), b), rest)
  {
  }

  // Left alone and with working updates, a worker ends, with its row delivered
  // exactly when one of its four sends is accepted, and with every other row as
  // it was.
  lemma {:induction false} LoneWorkerDecides(s: State, w: nat, replies: nat -> Reply, ok: nat -> bool, k: nat)
    requires k <= 4 && w < |s.workers| && s.workers[w].id in s.rows
    requires s.workers[w].phase == Ready && s.workers[w].refused == k && s.workers[w].accepted == 0
    requires forall j :: ok(j)
    ensures var t := Run(s, WorkerEvents(w, replies, ok, k));
            var id := s.workers[w].id;
            && t.rows.Keys == s.rows.Keys
            && t.rows[id].status == (if exists j :: k <= j < 4 && replies(j).Accepted? then Delivered else Failed)
            && (forall other :: other in s.rows && other != id ==> t.rows[other] == s.rows[other])
            && w < |t.workers| && t.workers[w].phase == Stopped
    decreases 4 - k
  {
    if k == 4 {
      OnlyGiveUp(s, w, replies, ok);
    } else {
      var next := OneAttempt(s, w, replies, ok, k);
      if replies(k).Refused? {
        LoneWorkerDecides(next, w, replies, ok, k + 1);
      } else {
        assert Run(next, []) == next;
      }
    }
  }

  // The `n`-th send is the first from the `k`-th on that is accepted.
  ghost predicate FirstAccepted(replies: nat -> Reply, k: nat, n: nat) {
    && k <= n < 4 && replies(n).Accepted?
    && (forall j :: k <= j < n ==> replies(j).Refused?)
    && (n > 0 ==> replies(n - 1).Refused?)
  }

  // The row such a worker leaves: the number of sends, and the text of the last refusal.
  lemma {:induction false} LoneWorkerRecords(s: State, w: nat, replies: nat -> Reply, ok: nat -> bool, k: nat)
    requires k <= 4 && w < |s.workers| && s.workers[w].id in s.rows
    requires s.workers[w].phase == Ready && s.workers[w].refused == k && s.workers[w].accepted == 0
    requires forall j :: ok(j)
    requires k > 0 ==> && replies(k - 1).Refused? && s.workers[w].lastError == Some(replies(k - 1).text)
                       && s.rows[s.workers[w].id].attempt == k
                       && s.rows[s.workers[w].id].error == Some(replies(k - 1).text)
    ensures var t, id := Run(s, WorkerEvents(w, replies, ok, k)), s.workers[w].id;
            && id in t.rows && var was, row := s.rows[id], t.rows[id];
            && ((forall j :: k <= j < 4 ==> replies(j).Refused?) && replies(3).Refused? ==>
                  row == Row(was.webhook, Failed, 4, Some(replies(3).text)))
            && (forall n: nat :: FirstAccepted(replies, k, n) ==>
                  row == Row(was.webhook, Delivered, n + 1, if n == 0 then was.error else Some(replies(n - 1).text)))
    decreases 4 - k
  {
    if k == 4 {
      OnlyGiveUp(s, w, replies, ok);
    } else {
      var next := OneAttempt(s, w, replies, ok, k);
      if replies(k).Refused? {
        LoneWorkerRecords(next, w, replies, ok, k + 1);
        assert forall n: nat :: FirstAccepted(replies, k, n) ==> FirstAccepted(replies, k + 1, n);
      } else {
        assert Run(next, []) == next;
      }
    }
  }
}
