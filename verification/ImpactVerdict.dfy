/**
 * What the verdict about a consumer means in terms of the rows of the tables
 * (radar-api/src/diffs.rs).
 */
module ImpactVerdict {
  import opened BlastRadius
  import opened Options
  import opened Sequences

  // The optional age limit lets a row of this time pass.
  predicate Young(r: Request, at: nat) {
    r.maxAgeDays.Some? ==> at != 0 && at >= r.now - r.maxAgeDays.value * 86400
  }

  // The times of the relevant rows of a consumer that pass the age limit.
  ghost function UsedAt(f: Facts, r: Request, ts: seq<Target>, consumer: string): iset<int> {
    iset e | e in UsageRows(f, r, ts, consumer) && Young(r, e.at) :: e.at
  }

  ghost function CalledAt(f: Facts, r: Request, ts: seq<Target>, consumer: string): iset<int> {
    iset e | e in CallRows(f, r, ts, consumer) && Young(r, e.at) :: e.at
  }

  ghost function CollectedAt(evidence: seq<Evidence>, r: Request, ts: seq<Target>, consumer: string): iset<int> {
    iset e | e in CollectionRows(evidence, r, ts, consumer) && Young(r, e.at) :: e.at
  }

  ghost predicate Times<T(!new)>(rows: seq<T>, at: T -> nat, times: iset<int>) {
    forall t :: t in times <==> exists x :: x in rows && at(x) == t
  }

  lemma UsageTimes(f: Facts, r: Request, ts: seq<Target>, consumer: string)
    ensures Times(RecentUsage(UsageRows(f, r, ts, consumer), AgeCutoff(r)), (e: UsageEvent) => e.at,
                  UsedAt(f, r, ts, consumer))
  {
    forall e ensures e in RecentUsage(UsageRows(f, r, ts, consumer), AgeCutoff(r))
                <==> e in UsageRows(f, r, ts, consumer) && Young(r, e.at)
    {
      RecentMembers(UsageRows(f, r, ts, consumer), (x: UsageEvent) => x.at, AgeCutoff(r), e);
    }
  }

  lemma CallTimes(f: Facts, r: Request, ts: seq<Target>, consumer: string)
    ensures Times(RecentCalls(CallRows(f, r, ts, consumer), AgeCutoff(r)), (e: CallSite) => e.at,
                  CalledAt(f, r, ts, consumer))
  {
    forall e ensures e in RecentCalls(CallRows(f, r, ts, consumer), AgeCutoff(r))
                <==> e in CallRows(f, r, ts, consumer) && Young(r, e.at)
    {
      RecentMembers(CallRows(f, r, ts, consumer), (x: CallSite) => x.at, AgeCutoff(r), e);
    }
  }

  lemma CollectionTimes(evidence: seq<Evidence>, r: Request, ts: seq<Target>, consumer: string)
    ensures Times(RecentEvidence(CollectionRows(evidence, r, ts, consumer), AgeCutoff(r)), (e: Evidence) => e.at,
                  CollectedAt(evidence, r, ts, consumer))
  {
    forall e ensures e in RecentEvidence(CollectionRows(evidence, r, ts, consumer), AgeCutoff(r))
                <==> e in CollectionRows(evidence, r, ts, consumer) && Young(r, e.at)
    {
      RecentMembers(CollectionRows(evidence, r, ts, consumer), (x: Evidence) => x.at, AgeCutoff(r), e);
    }
  }

  ghost predicate Nonempty(times: iset<int>) {
    exists t :: t in times
  }

  // Some usage is at most seven days old; neither usage nor a collection.
  ghost predicate SaysHowSure(v: Verdict, used: iset<int>, collected: iset<int>, now: int) {
    && (v.confidence == "high" <==> exists t :: t in used && t >= now - 7 * 86400)
    && (v.confidence == "low" <==> !Nonempty(used) && !Nonempty(collected))
    && v.confidence in ["high", "medium", "low"]
  }

  ghost predicate SaysWhen(v: Verdict, used: iset<int>, called: iset<int>, collected: iset<int>) {
    v.lastSeen in used + called + collected && forall t :: t in used + called + collected ==> t <= v.lastSeen
  }

  ghost predicate SaysWhat(v: Verdict, used: iset<int>, called: iset<int>, collected: iset<int>) {
    && (v.hasRuntimeUsage <==> Nonempty(used))
    && (v.hasCallSite <==> Nonempty(called))
    && (v.hasCollectionFile <==> Nonempty(collected))
  }

  // The newest time of some rows, and whether there are any.
  ghost predicate IsNewest(m: Option<nat>, times: iset<int>) {
    && (m.Some? <==> Nonempty(times))
    && (m.Some? ==> m.value in times && forall t :: t in times ==> t <= m.value)
  }

  lemma {:induction false} NewestTime<T(!new)>(rows: seq<T>, at: T -> nat, times: iset<int>)
    requires Times(rows, at, times)
    ensures IsNewest(MaxAt(rows, at), times)
    ensures rows != [] <==> Nonempty(times)
  {
    if rows != [] {
      assert MaxAt(rows, at).value in times;
    }
  }

  lemma LaterIsNewest(a: Option<nat>, b: Option<nat>, x: iset<int>, y: iset<int>)
    requires IsNewest(a, x) && IsNewest(b, y)
    ensures IsNewest(Later(a, b), x + y)
  {
    assert a.Some? ==> a.value in x + y;
    assert b.Some? ==> b.value in x + y;
  }

  lemma AssessMeans(u: seq<UsageEvent>, c: seq<CallSite>, k: seq<Evidence>, now: int,
      used: iset<int>, called: iset<int>, collected: iset<int>)
    requires Times(u, (e: UsageEvent) => e.at, used)
    requires Times(c, (e: CallSite) => e.at, called)
    requires Times(k, (e: Evidence) => e.at, collected)
    ensures var v := Assess(u, c, k, now - 7 * 86400);
            && (v.Some? <==> Nonempty(used + called + collected))
            && (v.Some? ==> && SaysHowSure(v.value, used, collected, now)
                            && SaysWhen(v.value, used, called, collected)
                            && SaysWhat(v.value, used, called, collected))
  {
    var usage, calls := MaxAt(u, (e: UsageEvent) => e.at), MaxAt(c, (e: CallSite) => e.at);
    var collections := MaxAt(k, (e: Evidence) => e.at);
    NewestTime(u, (e: UsageEvent) => e.at, used);
    NewestTime(c, (e: CallSite) => e.at, called);
    NewestTime(k, (e: Evidence) => e.at, collected);
    LaterIsNewest(usage, calls, used, called);
    LaterIsNewest(Later(usage, calls), collections, used + called, collected);
    assert "high"[0] == 'h' && "medium"[0] == 'm' && "low"[0] == 'l';
  }

  // What the entry of a consumer says, whatever rows the limit cut off: it is there
  // exactly if some relevant row passes the age limit; its confidence is "high" exactly
  // if some usage is at most seven days old, and "low" exactly if there is neither
  // usage nor a collection; its last sighting is the newest; its flags name the kinds.
  lemma VerdictMeans(env: Env, f: Facts, evidence: seq<Evidence>, r: Request, ts: seq<Target>, c: Consumer)
    requires EnvOk(env)
    ensures var entry := EntryOf(r, c, ItemsOf(env, f, evidence, r, ts, c.id));
            var used, called, collected :=
              UsedAt(f, r, ts, c.id), CalledAt(f, r, ts, c.id), CollectedAt(evidence, r, ts, c.id);
            && (entry.Some? <==> Nonempty(used + called + collected))
            && (entry.Some? ==> && entry.value.consumer == c
                                && SaysHowSure(entry.value.verdict, used, collected, r.now)
                                && SaysWhen(entry.value.verdict, used, called, collected)
                                && SaysWhat(entry.value.verdict, used, called, collected))
  {
    VerdictIsThatOfAllRows(env, f, evidence, r, ts, c);
    UsageTimes(f, r, ts, c.id);
    CallTimes(f, r, ts, c.id);
    CollectionTimes(evidence, r, ts, c.id);
    AssessMeans(RecentUsage(UsageRows(f, r, ts, c.id), AgeCutoff(r)),
                RecentCalls(CallRows(f, r, ts, c.id), AgeCutoff(r)),
                RecentEvidence(CollectionRows(evidence, r, ts, c.id), AgeCutoff(r)), r.now,
                UsedAt(f, r, ts, c.id), CalledAt(f, r, ts, c.id), CollectedAt(evidence, r, ts, c.id));
  }

  // ---------------------------------------------------------------------
  // What a path names
  // ---------------------------------------------------------------------

  ghost predicate NoArrowBefore(path: string, end: nat) {
    forall k: nat :: k < end ==> !OccursAt(path, " \U{2192} ", k)
  }

  lemma {:induction false} FirstArrow(path: string, op: string, after: string)
    requires path == op + " \U{2192} " + after && NoArrowBefore(path, |op|)
    ensures Find(path, ARROW, 0) == Some(|op|) && path[|op| + |ARROW|..] == after && path[..|op|] == op
  {
    assert path[|op|..|op| + |ARROW|] == ARROW;
    assert OccursAt(path, ARROW, |op|);
  }

  lemma CutTwice(s: string, i: nat, j: nat)
    requires i <= j <= |s|
    ensures s == s[..i] + s[i..j] + s[j..]
  {
  }

  lemma {:induction false} ArrowSplits(path: string)
    requires Find(path, ARROW, 0).Some?
    ensures var k := Find(path, ARROW, 0).value;
            k + |ARROW| <= |path| && path == path[..k] + ARROW + path[k + |ARROW|..] && NoArrowBefore(path, k)
  {
    var k := Find(path, ARROW, 0).value;
    CutTwice(path, k, k + |ARROW|);
    assert path[k..k + |ARROW|] == ARROW;
  }

  // Without an arrow a path names an operation; behind its first arrow stands the
  // field, of which "response." in front is no part.
  lemma TargetMeans(path: string, op: string, field: string)
    ensures TargetOf(path) == Operation(op) <==> path == op && NoArrowBefore(path, |path|)
    ensures TargetOf(path) == Field(op, field)
       <==> && NoArrowBefore(path, |op|)
            && (path == op + " \U{2192} " + ("response." + field)
                || (path == op + " \U{2192} " + field && !("response." <= field)))
  {
    if path == op + " \U{2192} " + ("response." + field) && NoArrowBefore(path, |op|) {
      FirstArrow(path, op, "response." + field);
      assert ("response." + field)[|RESPONSE|..] == field;
    }
    if path == op + " \U{2192} " + field && NoArrowBefore(path, |op|) {
      FirstArrow(path, op, field);
    }
    if Find(path, ARROW, 0).Some? {
      ArrowSplits(path);
      var after := path[Find(path, ARROW, 0).value + |ARROW|..];
      assert RESPONSE <= after ==> after == "response." + after[|RESPONSE|..];
    }
  }

  // ---------------------------------------------------------------------
  // Who is in the answer
  // ---------------------------------------------------------------------

  lemma {:induction false} EntriesMembers(env: Env, f: Facts, evidence: seq<Evidence>, r: Request, ts: seq<Target>,
      consumers: seq<Consumer>, entry: Entry)
    ensures entry in Entries(env, f, evidence, r, ts, consumers)
       <==> entry.consumer in consumers
            && EntryOf(r, entry.consumer, ItemsOf(env, f, evidence, r, ts, entry.consumer.id)) == Some(entry)
  {
    if consumers != [] {
      var init, c := consumers[..|consumers| - 1], consumers[|consumers| - 1];
      assert consumers == init + [c];
      EntriesMembers(env, f, evidence, r, ts, init, entry);
    }
  }

  // A consumer is in the answer exactly if it may be seen by the organisation, is
  // subscribed to the service or has a collection of it on file, and has a relevant
  // row that passes the age limit.
  lemma AnswerNamesExactly(env: Env, f: Facts, evidence: seq<Evidence>, r: Request, paths: seq<string>, c: Consumer)
    requires EnvOk(env)
    ensures var org := if r.serviceOrg == "" then r.callerOrg else r.serviceOrg;
            var ts := Targets(paths);
            (exists entry: Entry :: entry in Answer(env, f, evidence, r, paths) && entry.consumer == c)
            <==> && c in f.consumers
                 && (org == "" || c.org == "" || c.org == org)
                 && ((c.id, r.service) in f.subscriptions
                     || exists e :: e in evidence && e.consumer == c.id && e.service == r.service
                                    && e.org == org && e.source == CollectionFile)
                 && Nonempty(UsedAt(f, r, ts, c.id) + CalledAt(f, r, ts, c.id) + CollectedAt(evidence, r, ts, c.id))
  {
    var ts, consumers := Targets(paths), ConcernedConsumers(f, evidence, r);
    var found := EntryOf(r, c, ItemsOf(env, f, evidence, r, ts, c.id));
    VerdictMeans(env, f, evidence, r, ts, c);
    FilterMembers(f.consumers, x => Concerned(f, evidence, r, x), c);
    forall entry: Entry | entry.consumer == c
      ensures entry in Answer(env, f, evidence, r, paths) <==> c in consumers && found == Some(entry)
    {
      EntriesMembers(env, f, evidence, r, ts, consumers, entry);
    }
    if found.Some? {
      assert found.value.consumer == c;
    }
  }

  // ---------------------------------------------------------------------
  // Which rows are relevant
  // ---------------------------------------------------------------------

  ghost predicate WholeOperation(paths: seq<string>, op: string) {
    exists p :: p in paths && TargetOf(p) == Operation(op)
  }

  ghost predicate FieldOf(paths: seq<string>, op: string, field: string) {
    exists p :: p in paths && TargetOf(p) == Field(op, field)
  }

  lemma TargetsArePaths(paths: seq<string>, t: Target)
    ensures t in Targets(paths) <==> exists p :: p in paths && TargetOf(p) == t
  {
    if t in Targets(paths) {
      var i :| 0 <= i < |paths| && Targets(paths)[i] == t;
      assert paths[i] in paths && TargetOf(paths[i]) == t;
    }
    if p :| p in paths && TargetOf(p) == t {
      var i :| 0 <= i < |paths| && paths[i] == p;
      assert Targets(paths)[i] == t;
    }
  }

  lemma UsageRowsMean(f: Facts, r: Request, paths: seq<string>, consumer: string, e: UsageEvent)
    ensures e in UsageRows(f, r, Targets(paths), consumer)
       <==> && e in f.usage && e.consumer == consumer && e.service == r.service && e.at >= r.now - 30 * 86400
            && (WholeOperation(paths, e.op) || FieldOf(paths, e.op, e.field))
  {
    var ts := Targets(paths);
    FilterMembers(f.usage, (x: UsageEvent) =>
      x.consumer == consumer && x.service == r.service && x.at >= r.now - 30 * DAY && UsageHit(ts, x.op, x.field), e);
    TargetsArePaths(paths, Operation(e.op));
    TargetsArePaths(paths, Field(e.op, e.field));
  }

  // Call sites are matched by field, whatever operation the field belongs to.
  lemma CallRowsMean(f: Facts, r: Request, paths: seq<string>, consumer: string, e: CallSite)
    ensures e in CallRows(f, r, Targets(paths), consumer)
       <==> && e in f.calls && e.consumer == consumer && e.service == r.service
            && (WholeOperation(paths, e.op) || (e.field != "" && exists op :: FieldOf(paths, op, e.field)))
  {
    var ts := Targets(paths);
    FilterMembers(f.calls, (x: CallSite) =>
      x.consumer == consumer && x.service == r.service && CallHit(ts, x.op, x.field), e);
    TargetsArePaths(paths, Operation(e.op));
    forall op ensures Field(op, e.field) in ts <==> FieldOf(paths, op, e.field) {
      TargetsArePaths(paths, Field(op, e.field));
    }
    forall t | t in ts && t.Field? && t.field == e.field ensures Field(t.op, e.field) in ts {
    }
  }

  // A collection without a field counts for every field of its operation.
  lemma CollectionRowsMean(evidence: seq<Evidence>, r: Request, paths: seq<string>, consumer: string, e: Evidence)
    ensures var org := if r.serviceOrg == "" then r.callerOrg else r.serviceOrg;
            e in CollectionRows(evidence, r, Targets(paths), consumer)
            <==> && e in evidence && e.source == CollectionFile
                 && e.consumer == consumer && e.service == r.service && e.org == org
                 && (e.expires.Some? ==> e.expires.value > r.now)
                 && e.op.Some?
                 && (|| WholeOperation(paths, e.op.value)
                     || exists field :: FieldOf(paths, e.op.value, field)
                                        && (e.field == Some(field) || e.field == None || e.field == Some("")))
  {
    var ts := Targets(paths);
    FilterMembers(evidence, (x: Evidence) =>
      && IsCollectionOf(r, consumer, x)
      && (x.expires == None || x.expires.value > r.now)
      && CollectionHit(ts, x.op, x.field), e);
    if e.op.Some? {
      TargetsArePaths(paths, Operation(e.op.value));
      forall field ensures Field(e.op.value, field) in ts <==> FieldOf(paths, e.op.value, field) {
        TargetsArePaths(paths, Field(e.op.value, field));
      }
      forall t | t in ts && t.Field? && t.op == e.op.value ensures Field(e.op.value, t.field) in ts {
      }
    }
  }

  // ---------------------------------------------------------------------
  // How sure the rows written back are
  // ---------------------------------------------------------------------

  // A written row has the keys of the request and of its consumer. A usage is "high" up
  // to seven days back and else "medium"; a call site is "medium", or "low" if its
  // operation is blank.
  lemma WrittenRowMeans(env: Env, r: Request, consumer: string, items: Items, row: Evidence)
    requires row in RowsToWrite(env, r, consumer, items)
    ensures row.org == r.serviceOrg && row.diffId == r.diffId && row.service == r.service && row.consumer == consumer
    ensures row.op.Some? && row.field.Some? && row.expires == None
    ensures || (row.source == RuntimeUsage
                && row.confidence == (if r.now - row.at <= 7 * 86400 then "high" else "medium")
                && exists e :: e in items.usage && e.op == row.op.value && e.field == row.field.value && e.at == row.at)
            || (row.source == StaticCallSite
                && row.confidence == (if env.blank(row.op.value) then "low" else "medium")
                && exists e :: e in items.calls && e.op == row.op.value && e.field == row.field.value && e.at == row.at)
  {
    var i :| 0 <= i < |RowsToWrite(env, r, consumer, items)| && RowsToWrite(env, r, consumer, items)[i] == row;
    if i < |items.usage| {
      assert row == UsageEvidence(env, r, consumer, items.usage[i]);
    } else {
      assert row == CallEvidence(env, r, consumer, items.calls[i - |items.usage|]);
    }
  }

  // So an entry is "high" exactly if one of its rows is written as "high".
  lemma HighIsWritten(env: Env, r: Request, c: Consumer, items: Items)
    requires EntryOf(r, c, items).Some?
    ensures EntryOf(r, c, items).value.verdict.confidence == "high"
       <==> exists row :: row in RowsToWrite(env, r, c.id, items) && row.confidence == "high"
  {
    var rows := RowsToWrite(env, r, c.id, items);
    var times := iset e | e in items.usage :: e.at as int;
    NewestTime(items.usage, (e: UsageEvent) => e.at, times);
    assert "high"[0] == 'h' && "medium"[0] == 'm' && "low"[0] == 'l';
    if i :| 0 <= i < |items.usage| && items.usage[i].at >= r.now - 7 * 86400 {
      assert rows[i] == UsageEvidence(env, r, c.id, items.usage[i]);
    }
    forall row | row in rows && row.confidence == "high"
      ensures exists e :: e in items.usage && e.at >= r.now - 7 * 86400
    {
      WrittenRowMeans(env, r, c.id, items, row);
    }
  }

  // ---------------------------------------------------------------------
  // What is listed
  // ---------------------------------------------------------------------

  lemma PicksOfFew<T(!new)>(all: seq<T>, at: T -> nat, picked: seq<T>, x: T)
    requires Newest(all, at, 5, picked) && x in all && |all| <= 5
    ensures x in picked
  {
    assert |multiset(picked)| == |multiset(all)|;
    assert multiset(all) == multiset(picked) + (multiset(all) - multiset(picked));
    assert multiset(picked) == multiset(all);
    assert x in multiset(all) && x in multiset(picked);
  }

  lemma RecentIsNoLonger<T>(s: seq<T>, at: T -> nat, cutoff: Option<int>)
    ensures |Recent(s, at, cutoff)| <= |s|
  {
    FilterIsNoLonger(s, x => cutoff == None || (at(x) != 0 && at(x) >= cutoff.value));
  }

  lemma {:induction false} FilterIsNoLonger<T>(s: seq<T>, keep: T -> bool)
    ensures |Filter(s, keep)| <= |s|
  {
    if s != [] {
      FilterIsNoLonger(s[..|s| - 1], keep);
    }
  }

  // At most five rows of each kind are listed, all of them relevant and young enough; up
  // to five relevant usages are all listed if they are young enough.
  lemma FiveAreListed(env: Env, f: Facts, evidence: seq<Evidence>, r: Request, ts: seq<Target>, consumer: string)
    requires EnvOk(env)
    ensures var items := ItemsOf(env, f, evidence, r, ts, consumer);
            && |items.usage| <= 5 && |items.calls| <= 5 && |items.collections| <= 5
            && (forall e :: e in items.usage ==> e in UsageRows(f, r, ts, consumer) && Young(r, e.at))
            && (|UsageRows(f, r, ts, consumer)| <= 5 ==>
                  forall e :: e in UsageRows(f, r, ts, consumer) && Young(r, e.at) ==> e in items.usage)
  {
    var at := (e: UsageEvent) => e.at;
    var rows, picked := UsageRows(f, r, ts, consumer), env.newestUsage(UsageRows(f, r, ts, consumer));
    RecentIsNoLonger(picked, at, AgeCutoff(r));
    RecentIsNoLonger(env.newestCalls(CallRows(f, r, ts, consumer)), (e: CallSite) => e.at, AgeCutoff(r));
    RecentIsNoLonger(env.newestEvidence(CollectionRows(evidence, r, ts, consumer)), (e: Evidence) => e.at,
                     AgeCutoff(r));
    forall e ensures e in RecentUsage(picked, AgeCutoff(r)) <==> e in picked && Young(r, e.at) {
      RecentMembers(picked, at, AgeCutoff(r), e);
    }
    forall e | e in picked ensures e in rows {
      PicksAreRows(rows, at, 5, picked, e);
    }
    if |rows| <= 5 {
      forall e | e in rows ensures e in picked {
        PicksOfFew(rows, at, picked, e);
      }
    }
  }
}
