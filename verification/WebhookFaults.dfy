/**
 * What crashes and deleted webhooks mean for deliveries (radar-api/src/webhooks.rs).
 */
module WebhookFaults {
  import opened WebhookOutbox

  // ---------------------------------------------------------------------
  // Crashes
  // ---------------------------------------------------------------------

  ghost predicate SameFor(s: State, t: State, w: nat) {
    && w < |s.workers| == |t.workers| && s.workers[w] == t.workers[w] && s.rows == t.rows
  }

  ghost predicate OfWorker(e: Event, w: nat) {
    (e.Send? || e.Record? || e.GiveUp?) && e.w == w
  }

  lemma {:induction false} SameForOn(s: State, t: State, w: nat, events: seq<Event>)
    requires SameFor(s, t, w) && forall e :: e in events ==> OfWorker(e, w)
    ensures SameFor(Run(s, events), Run(t, events), w)
    decreases |events|
  {
    if events != [] {
      assert events[0] in events;
      SameForOn(Step(s, events[0]), Step(t, events[0]), w, events[1..]);
    }
  }

  lemma {:induction false} StoppedDoesNothing(s: State, w: nat, events: seq<Event>)
    requires w < |s.workers| && s.workers[w].phase == Stopped && forall e :: e in events ==> OfWorker(e, w)
    ensures Run(s, events) == s
    decreases |events|
  {
    if events != [] {
      assert events[0] in events;
      StoppedDoesNothing(s, w, events[1..]);
    }
  }

  // A crash writes nothing. The workers of the process send and write nothing after it,
  // and what the others go on to do to the table is what they would have done.
  lemma {:induction false} CrashStopsExactly(s: State, lost: set<nat>, w: nat, events: seq<Event>)
    requires w < |s.workers| && forall e :: e in events ==> OfWorker(e, w)
    ensures var t := Step(s, Crash(lost));
            && t.rows == s.rows && t.sends == s.sends
            && (w in lost ==> Run(t, events) == t)
            && (w !in lost ==> Run(t, events).rows == Run(s, events).rows)
  {
    var t := Step(s, Crash(lost));
    if w in lost {
      StoppedDoesNothing(t, w, events);
    } else {
      SameForOn(t, s, w, events);
    }
  }

  // ---------------------------------------------------------------------
  // Deleted webhooks
  // ---------------------------------------------------------------------

  ghost predicate Gone(s: State, webhook: string) {
    webhook !in s.webhooks && forall id :: id in s.rows ==> s.rows[id].webhook != webhook
  }

  lemma {:induction false} GoneStays(s: State, events: seq<Event>, webhook: string)
    requires Gone(s, webhook)
    ensures Gone(Run(s, events), webhook)
    decreases |events|
  {
    if events != [] {
      StepKeepsGone(s, events[0], webhook);
      GoneStays(Step(s, events[0]), events[1..], webhook);
    }
  }

  lemma StepKeepsGone(s: State, e: Event, webhook: string)
    requires Gone(s, webhook)
    ensures Gone(Step(s, e), webhook)
  {
  }

  // Deleting a webhook deletes its deliveries and no others, and nothing is delivered
  // for it any more, whatever its workers still do.
  lemma {:induction false} DeletedExactly(s: State, webhook: string, events: seq<Event>)
    ensures var t := Step(s, DeleteWebhook(webhook));
            && (forall id :: id in t.rows <==> id in s.rows && s.rows[id].webhook != webhook)
            && (forall id :: id in t.rows ==> t.rows[id] == s.rows[id])
            && Gone(Run(t, events), webhook)
  {
    GoneStays(Step(s, DeleteWebhook(webhook)), events, webhook);
  }
}
