/**
 * Who is affected by a diff (radar-api/src/diffs.rs).
 *
 * Timestamps are natural numbers of one clock; 0 stands for the empty text,
 * which the source orders before every timestamp.
 */
module BlastRadius {
  import opened Options
  import opened Sequences

  const DAY: int := 86400

  // ---------------------------------------------------------------------
  // What changed
  // ---------------------------------------------------------------------

  const ARROW := " \U{2192} "
  const RESPONSE := "response."

  datatype Target = Operation(op: string) | Field(op: string, field: string)

  predicate OccursAt(s: string, pattern: string, k: nat) {
    k + |pattern| <= |s| && s[k..k + |pattern|] == pattern
  }

  // The first position at or after `i` where `pattern` occurs.
  function Find(s: string, pattern: string, i: nat): (r: Option<nat>)
    ensures r.Some? ==> i <= r.value && OccursAt(s, pattern, r.value)
    ensures forall k :: i <= k && (r == None || k < r.value) ==> !OccursAt(s, pattern, k)
    decreases |s| - i
  {
    if i + |pattern| > |s| then None
    else if OccursAt(s, pattern, i) then Some(i)
    else Find(s, pattern, i + 1)
  }

  // A change path names an operation, or behind an arrow a field of one.
  function TargetOf(path: string): Target {
    match Find(path, ARROW, 0)
    case None => Operation(path)
    case Some(k) =>
      var after := path[k + |ARROW|..];
      Field(path[..k], if RESPONSE <= after then after[|RESPONSE|..] else after)
  }

  function Targets(paths: seq<string>): seq<Target> {
    Map(paths, TargetOf)
  }

  // ---------------------------------------------------------------------
  // Evidence rows
  // ---------------------------------------------------------------------

  datatype UsageEvent = UsageEvent(consumer: string, service: string, op: string, field: string, at: nat)

  datatype CallSite = CallSite(
    consumer: string, service: string, op: string, field: string, file: string, line: int, at: nat)

  datatype Source = RuntimeUsage | StaticCallSite | CollectionFile | OtherSource(name: string)

  datatype Evidence = Evidence(
    id: string, org: string, diffId: string, service: string, consumer: string, source: Source,
    op: Option<string>, field: Option<string>, confidence: string, at: nat, expires: Option<nat>)

  // Whether a row is about one of the changes: the plain meaning.
  ghost predicate UsageHit(ts: seq<Target>, op: string, field: string) {
    exists t :: t in ts && t.op == op && (t.Field? ==> t.field == field)
  }

  // A collection may name only an operation; then no field of it is ruled out.
  ghost predicate CollectionHit(ts: seq<Target>, op: Option<string>, field: Option<string>) {
    exists t :: t in ts && op == Some(t.op)
      && (t.Field? ==> field == Some(t.field) || field == None || field == Some(""))
  }

  // Call sites are matched by field alone.
  ghost predicate CallHit(ts: seq<Target>, op: string, field: string) {
    exists t :: t in ts && (if t.Operation? then t.op == op else t.field == field && field != "")
  }

  // ---------------------------------------------------------------------
  // The simplified query
  // ---------------------------------------------------------------------

  datatype Query = Query(
    ops: set<string>,                   // operations that changed as a whole
    pairs: seq<(string, string)>,       // fields of other operations, each once
    fields: seq<string>)                // all changed fields, each once

  predicate UsageSelected(q: Query, op: string, field: string) {
    op in q.ops || (op, field) in q.pairs
  }

  predicate CollectionSelected(q: Query, op: Option<string>, field: Option<string>) {
    op.Some? && (op.value in q.ops
      || exists p :: p in q.pairs && p.0 == op.value && (field == Some(p.1) || field == None || field == Some("")))
  }

  predicate CallSelected(q: Query, op: string, field: string) {
    op in q.ops || field in q.fields
  }

  ghost predicate Distinct<T>(s: seq<T>) {
    forall i, j :: 0 <= i < j < |s| ==> s[i] != s[j]
  }

  ghost predicate Simplifies(q: Query, ts: seq<Target>) {
    && (forall op :: op in q.ops <==> Operation(op) in ts)
    && (forall op, f :: (op, f) in q.pairs <==> Field(op, f) in ts && op !in q.ops)
    && (forall f :: f in q.fields <==> f != "" && exists t :: t in ts && t.Field? && t.field == f)
    && Distinct(q.pairs) && Distinct(q.fields)
  }

  lemma OneMoreTarget(paths: seq<string>, i: nat)
    requires i < |paths|
    ensures forall t :: t in Targets(paths[..i + 1]) <==> t in Targets(paths[..i]) || t == TargetOf(paths[i])
  {
    TargetsAppended(paths, i);
    InAppended(Targets(paths[..i]), TargetOf(paths[i]));
  }

  lemma TargetsAppended(paths: seq<string>, i: nat)
    requires i < |paths|
    ensures Targets(paths[..i + 1]) == Targets(paths[..i]) + [TargetOf(paths[i])]
  {
    MapAppended(paths, TargetOf, i);
  }

  lemma InAppended<T>(s: seq<T>, x: T)
    ensures forall y :: y in s + [x] <==> y in s || y == x
  {
  }

  method SplitTargets(paths: seq<string>) returns (ops: set<string>, changed: seq<(string, string)>)
    ensures forall op :: op in ops <==> Operation(op) in Targets(paths)
    ensures forall op, f :: (op, f) in changed <==> Field(op, f) in Targets(paths)
  {
    ops, changed := {}, [];
    for i := 0 to |paths|
      invariant forall op :: op in ops <==> Operation(op) in Targets(paths[..i])
      invariant forall op, f :: (op, f) in changed <==> Field(op, f) in Targets(paths[..i])
    {
      OneMoreTarget(paths, i);
      var t := TargetOf(paths[i]);
      if t.Operation? {
        ops := ops + {t.op};
      } else {
        changed := changed + [(t.op, t.field)];
      }
    }
    assert paths[..|paths|] == paths;
  }

  method FieldLevelOnly(ops: set<string>, changed: seq<(string, string)>) returns (pairs: seq<(string, string)>)
    ensures forall c :: c in pairs <==> c in changed && c.0 !in ops
    ensures Distinct(pairs)
  {
    pairs := [];
    for i := 0 to |changed|
      invariant forall c :: c in pairs <==> c in changed[..i] && c.0 !in ops
      invariant Distinct(pairs)
    {
      assert changed[..i + 1] == changed[..i] + [changed[i]];
      if changed[i].0 !in ops && changed[i] !in pairs {
        pairs := pairs + [changed[i]];
      }
    }
    assert changed[..|changed|] == changed;
  }

  method ChangedFields(changed: seq<(string, string)>) returns (fields: seq<string>)
    ensures forall f :: f in fields <==> f != "" && exists c :: c in changed && c.1 == f
    ensures Distinct(fields)
  {
    fields := [];
    for i := 0 to |changed|
      invariant forall f :: f in fields <==> f != "" && exists c :: c in changed[..i] && c.1 == f
      invariant Distinct(fields)
    {
      ghost var before := fields;
      var c := changed[i];
      assert changed[..i + 1] == changed[..i] + [c];
      if c.1 != "" && c.1 !in fields {
        fields := fields + [c.1];
      }
      assert forall f :: f in fields <==> f in before || (f == c.1 && f != "");
    }
    assert changed[..|changed|] == changed;
  }

  // From the changed paths to the rows: dropping fields of operations that changed
  // as a whole, and duplicates, changes the selection of no source.
  method BuildQuery(paths: seq<string>) returns (q: Query)
    ensures Simplifies(q, Targets(paths))
    ensures forall f, r, c :: SelectedUsage(f, r, q, c) == UsageRows(f, r, Targets(paths), c)
    ensures forall f, r, c :: SelectedCalls(f, r, q, c) == CallRows(f, r, Targets(paths), c)
    ensures forall rows, r, c :: SelectedCollections(rows, r, q, c) == CollectionRows(rows, r, Targets(paths), c)
  {
    var ops, changed := SplitTargets(paths);
    var pairs := FieldLevelOnly(ops, changed);
    var fields := ChangedFields(changed);
    q := Query(ops, pairs, fields);
    forall f ensures f in fields <==> f != "" && exists t :: t in Targets(paths) && t.Field? && t.field == f {
      if c :| c in changed && c.1 == f {
        assert (c.0, c.1) in changed && Field(c.0, c.1) in Targets(paths);
      }
      if t :| t in Targets(paths) && t.Field? && t.field == f {
        assert Field(t.op, t.field) in Targets(paths) && (t.op, t.field) in changed;
      }
    }
    SelectionIsExact(q, Targets(paths));
  }

  lemma SelectionIsExact(q: Query, ts: seq<Target>)
    requires Simplifies(q, ts)
    ensures forall f, r, c :: SelectedUsage(f, r, q, c) == UsageRows(f, r, ts, c)
    ensures forall f, r, c :: SelectedCalls(f, r, q, c) == CallRows(f, r, ts, c)
    ensures forall rows, r, c :: SelectedCollections(rows, r, q, c) == CollectionRows(rows, r, ts, c)
  {
    forall f, r, c ensures SelectedUsage(f, r, q, c) == UsageRows(f, r, ts, c) {
      UsageQueryIsExact(f, r, q, ts, c);
    }
    forall f, r, c ensures SelectedCalls(f, r, q, c) == CallRows(f, r, ts, c) {
      CallQueryIsExact(f, r, q, ts, c);
    }
    forall rows, r, c ensures SelectedCollections(rows, r, q, c) == CollectionRows(rows, r, ts, c) {
      CollectionQueryIsExact(rows, r, q, ts, c);
    }
  }

  // Dropping fields of operations that changed as a whole, and duplicates,
  // changes no selection.
  lemma SimplificationIsInvisible(q: Query, ts: seq<Target>)
    requires Simplifies(q, ts)
    ensures forall op, field :: UsageSelected(q, op, field) <==> UsageHit(ts, op, field)
    ensures forall op, field :: CollectionSelected(q, op, field) <==> CollectionHit(ts, op, field)
    ensures forall op, field :: CallSelected(q, op, field) <==> CallHit(ts, op, field)
  {
  }

  // ---------------------------------------------------------------------
  // The newest rows
  // ---------------------------------------------------------------------

  const LIMIT: nat := 5

  // ORDER BY at DESC LIMIT k, with ties in any order.
  ghost predicate Newest<T(!new)>(all: seq<T>, at: T -> nat, k: nat, picked: seq<T>) {
    && |picked| == (if |all| < k then |all| else k)
    && multiset(picked) <= multiset(all)
    && (forall i, j :: 0 <= i < j < |picked| ==> at(picked[i]) >= at(picked[j]))
    && (forall x :: x in all ==> x in picked || (forall y :: y in picked ==> at(x) <= at(y)))
  }

  function MaxAt<T>(s: seq<T>, at: T -> nat): (r: Option<nat>)
    ensures r == None <==> s == []
    ensures r.Some? ==> exists x :: x in s && at(x) == r.value
    ensures forall x :: x in s ==> r.Some? && at(x) <= r.value
  {
    if s == [] then None
    else
      assert s == s[..|s| - 1] + [s[|s| - 1]];
      var last := at(s[|s| - 1]);
      match MaxAt(s[..|s| - 1], at)
      case None => Some(last)
      case Some(m) => Some(if m < last then last else m)
  }

  // The optional age limit of the request.
  function Recent<T>(s: seq<T>, at: T -> nat, cutoff: Option<int>): seq<T> {
    Filter(s, x => cutoff == None || (at(x) != 0 && at(x) >= cutoff.value))
  }

  lemma RecentMembers<T>(s: seq<T>, at: T -> nat, cutoff: Option<int>, x: T)
    ensures x in Recent(s, at, cutoff) <==> x in s && (cutoff == None || (at(x) != 0 && at(x) >= cutoff.value))
  {
    FilterMembers(s, x => cutoff == None || (at(x) != 0 && at(x) >= cutoff.value), x);
  }

  lemma PicksAreRows<T(!new)>(all: seq<T>, at: T -> nat, k: nat, picked: seq<T>, x: T)
    requires Newest(all, at, k, picked) && x in picked
    ensures x in all
  {
    assert x in multiset(picked);
    assert x in multiset(all);
  }

  // For every row that passes the age limit some picked row passes too, and is
  // no older.
  lemma PickedIsAsNew<T(!new)>(all: seq<T>, at: T -> nat, k: nat, picked: seq<T>,
      cutoff: Option<int>, x: T)
    returns (y: T)
    requires k >= 1 && Newest(all, at, k, picked) && x in Recent(all, at, cutoff)
    ensures y in Recent(picked, at, cutoff) && at(y) >= at(x)
  {
    RecentMembers(all, at, cutoff, x);
    if x in picked {
      y := x;
    } else {
      assert |all| > 0;
      y := picked[0];
      assert y in picked;
    }
    RecentMembers(picked, at, cutoff, y);
  }

  lemma NewestRow<T(!new)>(s: seq<T>, at: T -> nat) returns (x: T)
    requires s != []
    ensures x in s && forall y :: y in s ==> at(y) <= at(x)
  {
    var m := MaxAt(s, at);
    x :| x in s && at(x) == m.value;
  }

  lemma {:induction false} SameNewest<T(!new)>(few: seq<T>, many: seq<T>, at: T -> nat, y: T)
    requires forall x :: x in few ==> x in many
    requires y in few && forall x :: x in many ==> at(x) <= at(y)
    ensures MaxAt(few, at) == MaxAt(many, at) == Some(at(y))
  {
    assert y in many;
  }

  // Cutting off older rows, however few are left, and then applying the age
  // limit keeps the newest timestamp and whether there is any row at all.
  lemma CuttingKeepsNewest<T(!new)>(all: seq<T>, at: T -> nat, k: nat, picked: seq<T>,
      cutoff: Option<int>)
    requires k >= 1 && Newest(all, at, k, picked)
    ensures MaxAt(Recent(picked, at, cutoff), at) == MaxAt(Recent(all, at, cutoff), at)
    ensures Recent(picked, at, cutoff) == [] <==> Recent(all, at, cutoff) == []
  {
    var few, many := Recent(picked, at, cutoff), Recent(all, at, cutoff);
    forall x | x in few ensures x in many {
      RecentMembers(picked, at, cutoff, x);
      PicksAreRows(all, at, k, picked, x);
      RecentMembers(all, at, cutoff, x);
    }
    if many != [] {
      var x := NewestRow(many, at);
      var y := PickedIsAsNew(all, at, k, picked, cutoff, x);
      SameNewest(few, many, at, y);
    }
  }

  // ---------------------------------------------------------------------
  // The verdict about one consumer
  // ---------------------------------------------------------------------

  datatype Verdict = Verdict(
    confidence: string, lastSeen: nat, hasRuntimeUsage: bool, hasCallSite: bool, hasCollectionFile: bool)

  function Later(a: Option<nat>, b: Option<nat>): Option<nat> {
    if a == None then b
    else if b == None || b.value < a.value then a
    else b
  }

  // Nothing when there is no evidence at all.
  function Assess(u: seq<UsageEvent>, c: seq<CallSite>, k: seq<Evidence>, cutoff7: int): Option<Verdict> {
    if u == [] && c == [] && k == [] then None
    else
      var usage := MaxAt(u, (e: UsageEvent) => e.at);
      var calls := MaxAt(c, (e: CallSite) => e.at);
      var collections := MaxAt(k, (e: Evidence) => e.at);
      Some(Verdict(
        if usage.Some? then (if usage.value >= cutoff7 then "high" else "medium")
        else if k != [] then "medium"
        else "low",
        Later(Later(usage, calls), collections).GetOr(0),
        u != [], c != [], k != []))
  }

  // Cutting every source to its newest rows before the age limit never changes
  // whether a consumer appears, nor its flags, confidence or last sighting.
  lemma LimitIsInvisible(u: seq<UsageEvent>, c: seq<CallSite>, k: seq<Evidence>,
                         pu: seq<UsageEvent>, pc: seq<CallSite>, pk: seq<Evidence>,
                         limit: nat, cutoff: Option<int>, cutoff7: int)
    requires limit >= 1
    requires Newest(u, (e: UsageEvent) => e.at, limit, pu)
    requires Newest(c, (e: CallSite) => e.at, limit, pc)
    requires Newest(k, (e: Evidence) => e.at, limit, pk)
    ensures Assess(RecentUsage(pu, cutoff), RecentCalls(pc, cutoff), RecentEvidence(pk, cutoff), cutoff7)
         == Assess(RecentUsage(u, cutoff), RecentCalls(c, cutoff), RecentEvidence(k, cutoff), cutoff7)
  {
    CuttingKeepsNewest(u, (e: UsageEvent) => e.at, limit, pu, cutoff);
    CuttingKeepsNewest(c, (e: CallSite) => e.at, limit, pc, cutoff);
    CuttingKeepsNewest(k, (e: Evidence) => e.at, limit, pk, cutoff);
  }

  function RecentUsage(s: seq<UsageEvent>, cutoff: Option<int>): seq<UsageEvent> {
    Recent(s, (e: UsageEvent) => e.at, cutoff)
  }

  function RecentCalls(s: seq<CallSite>, cutoff: Option<int>): seq<CallSite> {
    Recent(s, (e: CallSite) => e.at, cutoff)
  }

  function RecentEvidence(s: seq<Evidence>, cutoff: Option<int>): seq<Evidence> {
    Recent(s, (e: Evidence) => e.at, cutoff)
  }

  // ---------------------------------------------------------------------
  // The whole request
  // ---------------------------------------------------------------------

  datatype Consumer = Consumer(id: string, org: string)

  // The tables other than impact_evidence; nothing here writes them.
  datatype Facts = Facts(
    consumers: seq<Consumer>,
    subscriptions: set<(string, string)>,   // consumer, service
    usage: seq<UsageEvent>,
    calls: seq<CallSite>)

  datatype Request = Request(
    diffId: string, service: string, serviceOrg: string, callerOrg: string, maxAgeDays: Option<nat>, now: int)

  // The database's choice among rows of equal age, the UUID of a text, and
  // whether a text is blank after trimming.
  datatype Env = Env(
    newestUsage: seq<UsageEvent> -> seq<UsageEvent>,
    newestCalls: seq<CallSite> -> seq<CallSite>,
    newestEvidence: seq<Evidence> -> seq<Evidence>,
    uuid5: string -> string,
    blank: string -> bool)

  ghost predicate EnvOk(env: Env) {
    && (forall s :: Newest(s, (e: UsageEvent) => e.at, LIMIT, env.newestUsage(s)))
    && (forall s :: Newest(s, (e: CallSite) => e.at, LIMIT, env.newestCalls(s)))
    && (forall s :: Newest(s, (e: Evidence) => e.at, LIMIT, env.newestEvidence(s)))
  }

  function EvidenceOrg(r: Request): string {
    if r.serviceOrg == "" then r.callerOrg else r.serviceOrg
  }

  function AgeCutoff(r: Request): Option<int> {
    match r.maxAgeDays
    case Some(days) => Some(r.now - days * DAY)
    case None => None
  }

  predicate IsCollectionOf(r: Request, consumer: string, e: Evidence) {
    e.consumer == consumer && e.service == r.service && e.org == EvidenceOrg(r) && e.source == CollectionFile
  }

  predicate Concerned(f: Facts, evidence: seq<Evidence>, r: Request, c: Consumer) {
    && (EvidenceOrg(r) == "" || c.org == "" || c.org == EvidenceOrg(r))
    && ((c.id, r.service) in f.subscriptions || exists e :: e in evidence && IsCollectionOf(r, c.id, e))
  }

  // The rows of a consumer that are about one of the changes.
  ghost function UsageRows(f: Facts, r: Request, ts: seq<Target>, consumer: string): seq<UsageEvent> {
    Filter(f.usage, (e: UsageEvent) =>
      e.consumer == consumer && e.service == r.service && e.at >= r.now - 30 * DAY && UsageHit(ts, e.op, e.field))
  }

  ghost function CallRows(f: Facts, r: Request, ts: seq<Target>, consumer: string): seq<CallSite> {
    Filter(f.calls, (e: CallSite) => e.consumer == consumer && e.service == r.service && CallHit(ts, e.op, e.field))
  }

  ghost function CollectionRows(evidence: seq<Evidence>, r: Request, ts: seq<Target>, consumer: string): seq<Evidence> {
    Filter(evidence, (e: Evidence) =>
      && IsCollectionOf(r, consumer, e)
      && (e.expires == None || e.expires.value > r.now)
      && CollectionHit(ts, e.op, e.field))
  }

  // The same rows as the simplified query asks for them.
  function SelectedUsage(f: Facts, r: Request, q: Query, consumer: string): seq<UsageEvent> {
    Filter(f.usage, (e: UsageEvent) =>
      e.consumer == consumer && e.service == r.service && e.at >= r.now - 30 * DAY && UsageSelected(q, e.op, e.field))
  }

  function SelectedCalls(f: Facts, r: Request, q: Query, consumer: string): seq<CallSite> {
    Filter(f.calls, (e: CallSite) => e.consumer == consumer && e.service == r.service && CallSelected(q, e.op, e.field))
  }

  function SelectedCollections(evidence: seq<Evidence>, r: Request, q: Query, consumer: string): seq<Evidence> {
    Filter(evidence, (e: Evidence) =>
      && IsCollectionOf(r, consumer, e)
      && (e.expires == None || e.expires.value > r.now)
      && CollectionSelected(q, e.op, e.field))
  }

  lemma UsageQueryIsExact(f: Facts, r: Request, q: Query, ts: seq<Target>, consumer: string)
    requires Simplifies(q, ts)
    ensures SelectedUsage(f, r, q, consumer) == UsageRows(f, r, ts, consumer)
    ensures q.ops == {} && q.pairs == [] ==> UsageRows(f, r, ts, consumer) == []
  {
    SimplificationIsInvisible(q, ts);
    FilterSame(f.usage,
      (e: UsageEvent) =>
        e.consumer == consumer && e.service == r.service && e.at >= r.now - 30 * DAY && UsageSelected(q, e.op, e.field),
      (e: UsageEvent) =>
        e.consumer == consumer && e.service == r.service && e.at >= r.now - 30 * DAY && UsageHit(ts, e.op, e.field));
    if q.ops == {} && q.pairs == [] {
      FilterNone(f.usage, (e: UsageEvent) =>
        e.consumer == consumer && e.service == r.service && e.at >= r.now - 30 * DAY
        && UsageSelected(q, e.op, e.field));
    }
  }

  lemma CallQueryIsExact(f: Facts, r: Request, q: Query, ts: seq<Target>, consumer: string)
    requires Simplifies(q, ts)
    ensures SelectedCalls(f, r, q, consumer) == CallRows(f, r, ts, consumer)
    ensures q.ops == {} && q.fields == [] ==> CallRows(f, r, ts, consumer) == []
  {
    SimplificationIsInvisible(q, ts);
    FilterSame(f.calls,
      (e: CallSite) => e.consumer == consumer && e.service == r.service && CallSelected(q, e.op, e.field),
      (e: CallSite) => e.consumer == consumer && e.service == r.service && CallHit(ts, e.op, e.field));
    if q.ops == {} && q.fields == [] {
      FilterNone(f.calls, (e: CallSite) =>
        e.consumer == consumer && e.service == r.service && CallSelected(q, e.op, e.field));
    }
  }

  lemma CollectionQueryIsExact(evidence: seq<Evidence>, r: Request, q: Query, ts: seq<Target>,
      consumer: string)
    requires Simplifies(q, ts)
    ensures SelectedCollections(evidence, r, q, consumer) == CollectionRows(evidence, r, ts, consumer)
    ensures q.ops == {} && q.pairs == [] ==> CollectionRows(evidence, r, ts, consumer) == []
  {
    SimplificationIsInvisible(q, ts);
    FilterSame(evidence,
      (e: Evidence) =>
        IsCollectionOf(r, consumer, e) && (e.expires == None || e.expires.value > r.now)
        && CollectionSelected(q, e.op, e.field),
      (e: Evidence) =>
        IsCollectionOf(r, consumer, e) && (e.expires == None || e.expires.value > r.now)
        && CollectionHit(ts, e.op, e.field));
    if q.ops == {} && q.pairs == [] {
      FilterNone(evidence, (e: Evidence) =>
        IsCollectionOf(r, consumer, e) && (e.expires == None || e.expires.value > r.now)
        && CollectionSelected(q, e.op, e.field));
    }
  }

  datatype Items = Items(usage: seq<UsageEvent>, calls: seq<CallSite>, collections: seq<Evidence>)

  // The evidence listed for a consumer.
  ghost function ItemsOf(env: Env, f: Facts, evidence: seq<Evidence>, r: Request, ts: seq<Target>,
      consumer: string): Items {
    Items(RecentUsage(env.newestUsage(UsageRows(f, r, ts, consumer)), AgeCutoff(r)),
          RecentCalls(env.newestCalls(CallRows(f, r, ts, consumer)), AgeCutoff(r)),
          RecentEvidence(env.newestEvidence(CollectionRows(evidence, r, ts, consumer)), AgeCutoff(r)))
  }

  datatype Entry = Entry(consumer: Consumer, verdict: Verdict, items: Items)

  function EntryOf(r: Request, c: Consumer, items: Items): Option<Entry> {
    match Assess(items.usage, items.calls, items.collections, r.now - 7 * DAY)
    case None => None
    case Some(v) => Some(Entry(c, v, items))
  }

  // ---------------------------------------------------------------------
  // Evidence written back
  // ---------------------------------------------------------------------

  function SourceName(s: Source): string {
    match s
    case RuntimeUsage => "runtime_usage"
    case StaticCallSite => "static_call_site"
    case CollectionFile => "collection_file"
    case OtherSource(name) => name
  }

  function EvidenceText(diffId: string, service: string, consumer: string, source: Source, op: string,
      field: string): string {
    ("blast_radius:" + diffId + ":" + service + ":" + consumer + ":" + SourceName(source) + ":") + (op + (":" + field))
  }

  function UsageEvidence(env: Env, r: Request, consumer: string, e: UsageEvent): Evidence {
    Evidence(env.uuid5(EvidenceText(r.diffId, r.service, consumer, RuntimeUsage, e.op, e.field)),
             r.serviceOrg, r.diffId, r.service, consumer, RuntimeUsage, Some(e.op), Some(e.field),
             if e.at >= r.now - 7 * DAY then "high" else "medium", e.at, None)
  }

  function CallEvidence(env: Env, r: Request, consumer: string, e: CallSite): Evidence {
    Evidence(env.uuid5(EvidenceText(r.diffId, r.service, consumer, StaticCallSite, e.op, e.field)),
             r.serviceOrg, r.diffId, r.service, consumer, StaticCallSite, Some(e.op), Some(e.field),
             if env.blank(e.op) then "low" else "medium", e.at, None)
  }

  function RowsToWrite(env: Env, r: Request, consumer: string, items: Items): seq<Evidence> {
    seq(|items.usage|, i requires 0 <= i < |items.usage| => UsageEvidence(env, r, consumer, items.usage[i]))
    + seq(|items.calls|, i requires 0 <= i < |items.calls| => CallEvidence(env, r, consumer, items.calls[i]))
  }

  predicate HasId(evidence: seq<Evidence>, id: string) {
    exists e :: e in evidence && e.id == id
  }

  // INSERT ... ON CONFLICT(id) DO NOTHING
  function Inserted(evidence: seq<Evidence>, row: Evidence): seq<Evidence> {
    if HasId(evidence, row.id) then evidence else evidence + [row]
  }

  function InsertedAll(evidence: seq<Evidence>, rows: seq<Evidence>): seq<Evidence>
    decreases |rows|
  {
    if rows == [] then evidence
    else Inserted(InsertedAll(evidence, rows[..|rows| - 1]), rows[|rows| - 1])
  }

  // The answer and the rows written, as one computation on the initial tables.
  ghost function Entries(env: Env, f: Facts, evidence: seq<Evidence>, r: Request, ts: seq<Target>,
      consumers: seq<Consumer>): seq<Entry> {
    if consumers == [] then []
    else
      var c := consumers[|consumers| - 1];
      Entries(env, f, evidence, r, ts, consumers[..|consumers| - 1])
      + match EntryOf(r, c, ItemsOf(env, f, evidence, r, ts, c.id))
        case Some(entry) => [entry]
        case None => []
  }

  ghost function Writes(env: Env, f: Facts, evidence: seq<Evidence>, r: Request, ts: seq<Target>,
      consumers: seq<Consumer>): seq<Evidence> {
    if consumers == [] then []
    else
      var c := consumers[|consumers| - 1];
      Writes(env, f, evidence, r, ts, consumers[..|consumers| - 1])
      + RowsToWrite(env, r, c.id, ItemsOf(env, f, evidence, r, ts, c.id))
  }

  function ConcernedConsumers(f: Facts, evidence: seq<Evidence>, r: Request): seq<Consumer> {
    Filter(f.consumers, c => Concerned(f, evidence, r, c))
  }

  ghost predicate NoCollections(rows: seq<Evidence>) {
    forall e :: e in rows ==> e.source != CollectionFile
  }

  // Rows of other kinds are never read back.
  ghost predicate SameCollections(a: seq<Evidence>, b: seq<Evidence>) {
    Filter(a, (e: Evidence) => e.source == CollectionFile) == Filter(b, (e: Evidence) => e.source == CollectionFile)
  }

  lemma SameRows(a: seq<Evidence>, b: seq<Evidence>, r: Request, ts: seq<Target>, consumer: string)
    requires SameCollections(a, b)
    ensures CollectionRows(a, r, ts, consumer) == CollectionRows(b, r, ts, consumer)
    ensures (exists e :: e in a && IsCollectionOf(r, consumer, e))
       <==> (exists e :: e in b && IsCollectionOf(r, consumer, e))
  {
    var kind := (e: Evidence) => e.source == CollectionFile;
    var rest := (e: Evidence) =>
      && IsCollectionOf(r, consumer, e)
      && (e.expires == None || e.expires.value > r.now)
      && CollectionHit(ts, e.op, e.field);
    FilterFilter(a, kind, rest, rest);
    FilterFilter(b, kind, rest, rest);
    forall e ensures (e in a && kind(e)) <==> (e in b && kind(e)) {
      FilterMembers(a, kind, e);
      FilterMembers(b, kind, e);
    }
    assert forall e :: IsCollectionOf(r, consumer, e) ==> kind(e);
  }

  lemma {:induction false} InsertingKeepsCollections(evidence: seq<Evidence>, rows: seq<Evidence>)
    requires NoCollections(rows)
    ensures SameCollections(evidence, InsertedAll(evidence, rows))
  {
    if rows != [] {
      var init, last := rows[..|rows| - 1], rows[|rows| - 1];
      InsertingKeepsCollections(evidence, init);
      var before := InsertedAll(evidence, init);
      assert last in rows;
      assert (before + [last])[..|before|] == before;
    }
  }

  lemma {:induction false} InsertedIdsArePresent(evidence: seq<Evidence>, rows: seq<Evidence>, id: string)
    ensures HasId(evidence, id) ==> HasId(InsertedAll(evidence, rows), id)
    ensures HasId(rows, id) ==> HasId(InsertedAll(evidence, rows), id)
  {
    if rows != [] {
      var init, last := rows[..|rows| - 1], rows[|rows| - 1];
      InsertedIdsArePresent(evidence, init, id);
      var before := InsertedAll(evidence, init);
      assert rows == init + [last];
      assert last in before + [last];
      assert forall e :: e in before ==> e in before + [last];
    }
  }

  lemma {:induction false} InsertingAgain(evidence: seq<Evidence>, rows: seq<Evidence>)
    requires forall e :: e in rows ==> HasId(evidence, e.id)
    ensures InsertedAll(evidence, rows) == evidence
  {
    if rows != [] {
      var init, last := rows[..|rows| - 1], rows[|rows| - 1];
      assert rows == init + [last];
      InsertingAgain(evidence, init);
      assert HasId(evidence, last.id);
    }
  }

  lemma {:induction false} InsertingInTurn(evidence: seq<Evidence>, a: seq<Evidence>, b: seq<Evidence>)
    ensures InsertedAll(evidence, a + b) == InsertedAll(InsertedAll(evidence, a), b)
    decreases |b|
  {
    if b == [] {
      assert a + b == a;
    } else {
      var init, last := b[..|b| - 1], b[|b| - 1];
      assert (a + b)[..|a + b| - 1] == a + init;
      InsertingInTurn(evidence, a, init);
    }
  }

  // What depends on the evidence table depends on its collection rows only.
  lemma {:induction false} SameAnswer(env: Env, f: Facts, a: seq<Evidence>, b: seq<Evidence>, r: Request,
      ts: seq<Target>, consumers: seq<Consumer>)
    requires SameCollections(a, b)
    ensures Entries(env, f, a, r, ts, consumers) == Entries(env, f, b, r, ts, consumers)
    ensures Writes(env, f, a, r, ts, consumers) == Writes(env, f, b, r, ts, consumers)
  {
    if consumers != [] {
      SameAnswer(env, f, a, b, r, ts, consumers[..|consumers| - 1]);
      SameRows(a, b, r, ts, consumers[|consumers| - 1].id);
    }
  }

  lemma SameConcerned(f: Facts, a: seq<Evidence>, b: seq<Evidence>, r: Request)
    requires SameCollections(a, b)
    ensures ConcernedConsumers(f, a, r) == ConcernedConsumers(f, b, r)
  {
    forall c | c in f.consumers ensures Concerned(f, a, r, c) == Concerned(f, b, r, c) {
      SameRows(a, b, r, [], c.id);
    }
    FilterSame(f.consumers, c => Concerned(f, a, r, c), c => Concerned(f, b, r, c));
  }

  lemma {:induction false} AllWritesAreNotCollections(env: Env, f: Facts, evidence: seq<Evidence>, r: Request,
      ts: seq<Target>, consumers: seq<Consumer>)
    ensures NoCollections(Writes(env, f, evidence, r, ts, consumers))
  {
    if consumers != [] {
      AllWritesAreNotCollections(env, f, evidence, r, ts, consumers[..|consumers| - 1]);
    }
  }

  // ---------------------------------------------------------------------
  // GET /v1/diffs/:id/blast-radius
  // ---------------------------------------------------------------------

  ghost function Answer(env: Env, f: Facts, evidence: seq<Evidence>, r: Request, paths: seq<string>): seq<Entry> {
    Entries(env, f, evidence, r, Targets(paths), ConcernedConsumers(f, evidence, r))
  }

  ghost function EvidenceAfter(env: Env, f: Facts, evidence: seq<Evidence>, r: Request,
      paths: seq<string>): seq<Evidence> {
    InsertedAll(evidence, Writes(env, f, evidence, r, Targets(paths), ConcernedConsumers(f, evidence, r)))
  }

  // At one moment and on unchanged facts, asking again gives the same answer and
  // adds no row.
  lemma AskingAgainChangesNothing(env: Env, f: Facts, evidence: seq<Evidence>, r: Request,
      paths: seq<string>)
    ensures var after := EvidenceAfter(env, f, evidence, r, paths);
            && Answer(env, f, after, r, paths) == Answer(env, f, evidence, r, paths)
            && EvidenceAfter(env, f, after, r, paths) == after
  {
    var ts, consumers := Targets(paths), ConcernedConsumers(f, evidence, r);
    var rows := Writes(env, f, evidence, r, ts, consumers);
    var after := InsertedAll(evidence, rows);
    AllWritesAreNotCollections(env, f, evidence, r, ts, consumers);
    InsertingKeepsCollections(evidence, rows);
    SameConcerned(f, evidence, after, r);
    SameAnswer(env, f, evidence, after, r, ts, consumers);
    forall e | e in rows ensures HasId(after, e.id) {
      InsertedIdsArePresent(evidence, rows, e.id);
    }
    InsertingAgain(after, rows);
  }

  lemma LimitOnRows(env: Env, u: seq<UsageEvent>, k: seq<CallSite>, e: seq<Evidence>,
      cutoff: Option<int>, cutoff7: int)
    requires EnvOk(env)
    ensures Assess(RecentUsage(env.newestUsage(u), cutoff), RecentCalls(env.newestCalls(k), cutoff),
                   RecentEvidence(env.newestEvidence(e), cutoff), cutoff7)
         == Assess(RecentUsage(u, cutoff), RecentCalls(k, cutoff), RecentEvidence(e, cutoff), cutoff7)
  {
    LimitIsInvisible(u, k, e, env.newestUsage(u), env.newestCalls(k), env.newestEvidence(e), LIMIT, cutoff, cutoff7);
  }

  // A consumer is reported exactly when some relevant row of any age rank
  // passes the age limit, with the verdict that all such rows give.
  lemma VerdictIsThatOfAllRows(env: Env, f: Facts, evidence: seq<Evidence>, r: Request,
      ts: seq<Target>, c: Consumer)
    requires EnvOk(env)
    ensures var all := Assess(RecentUsage(UsageRows(f, r, ts, c.id), AgeCutoff(r)),
                              RecentCalls(CallRows(f, r, ts, c.id), AgeCutoff(r)),
                              RecentEvidence(CollectionRows(evidence, r, ts, c.id), AgeCutoff(r)), r.now - 7 * DAY);
            var entry := EntryOf(r, c, ItemsOf(env, f, evidence, r, ts, c.id));
            (entry.Some? <==> all.Some?) && (entry.Some? ==> entry.value.verdict == all.value)
  {
    LimitOnRows(env, UsageRows(f, r, ts, c.id), CallRows(f, r, ts, c.id), CollectionRows(evidence, r, ts, c.id),
                AgeCutoff(r), r.now - 7 * DAY);
  }

  class ImpactStore {
    const facts: Facts
    var evidence: seq<Evidence>

    constructor (facts: Facts, evidence: seq<Evidence>)
      ensures this.facts == facts && this.evidence == evidence
    {
      this.facts, this.evidence := facts, evidence;
    }

    method InsertEvidence(row: Evidence)
      modifies this
      ensures evidence == Inserted(old(evidence), row)
    {
      if !HasId(evidence, row.id) {
        evidence := evidence + [row];
      }
    }

    method CollectItems(env: Env, r: Request, q: Query, consumer: string, ghost ts: seq<Target>) returns (items: Items)
      requires EnvOk(env) && Simplifies(q, ts)
      ensures items == ItemsOf(env, facts, evidence, r, ts, consumer)
    {
      UsageQueryIsExact(facts, r, q, ts, consumer);
      CallQueryIsExact(facts, r, q, ts, consumer);
      CollectionQueryIsExact(evidence, r, q, ts, consumer);
      var usage: seq<UsageEvent> := [];
      if q.ops != {} || q.pairs != [] {
        usage := env.newestUsage(SelectedUsage(facts, r, q, consumer));
      }
      var calls: seq<CallSite> := [];
      if q.ops != {} || q.fields != [] {
        calls := env.newestCalls(SelectedCalls(facts, r, q, consumer));
      }
      var collections: seq<Evidence> := [];
      if q.ops != {} || q.pairs != [] {
        collections := env.newestEvidence(SelectedCollections(evidence, r, q, consumer));
      }
      assert |env.newestUsage([])| == 0 && |env.newestCalls([])| == 0 && |env.newestEvidence([])| == 0;
      items := Items(RecentUsage(usage, AgeCutoff(r)),
                     RecentCalls(calls, AgeCutoff(r)),
                     RecentEvidence(collections, AgeCutoff(r)));
    }

    method WriteBack(rows: seq<Evidence>)
      modifies this
      ensures evidence == InsertedAll(old(evidence), rows)
    {
      for i := 0 to |rows|
        invariant evidence == InsertedAll(old(evidence), rows[..i])
      {
        InsertEvidence(rows[i]);
        assert rows[..i + 1][..i] == rows[..i];
      }
      assert rows[..|rows|] == rows;
    }

    // One consumer: what is listed about it, written back first.
    method ServeConsumer(env: Env, r: Request, q: Query, c: Consumer, ghost ts: seq<Target>,
        ghost before: seq<Evidence>)
      returns (entry: Option<Entry>)
      requires EnvOk(env) && Simplifies(q, ts) && SameCollections(before, evidence)
      modifies this
      ensures entry == EntryOf(r, c, ItemsOf(env, facts, before, r, ts, c.id))
      ensures evidence
           == InsertedAll(old(evidence), RowsToWrite(env, r, c.id, ItemsOf(env, facts, before, r, ts, c.id)))
    {
      SameRows(before, evidence, r, ts, c.id);
      var items := CollectItems(env, r, q, c.id, ts);
      entry := EntryOf(r, c, items);
      if entry == None {
        assert |RowsToWrite(env, r, c.id, items)| == 0;
        return;
      }
      WriteBack(RowsToWrite(env, r, c.id, items));
    }

    // Reading and writing alternate, consumer by consumer; the outcome is as if
    // everything had been read first.
    method BlastRadius(env: Env, r: Request, paths: seq<string>) returns (entries: seq<Entry>)
      requires EnvOk(env)
      modifies this
      ensures entries == Answer(env, facts, old(evidence), r, paths)
      ensures evidence == EvidenceAfter(env, facts, old(evidence), r, paths)
    {
      var q := BuildQuery(paths);
      ghost var ts, before := Targets(paths), evidence;
      var consumers := ConcernedConsumers(facts, evidence, r);
      entries := [];
      for i := 0 to |consumers|
        invariant entries == Entries(env, facts, before, r, ts, consumers[..i])
        invariant evidence == InsertedAll(before, Writes(env, facts, before, r, ts, consumers[..i]))
      {
        ghost var rows := Writes(env, facts, before, r, ts, consumers[..i]);
        ghost var more := RowsToWrite(env, r, consumers[i].id, ItemsOf(env, facts, before, r, ts, consumers[i].id));
        WritesStayInvisible(env, facts, before, r, ts, consumers[..i]);
        var entry := ServeConsumer(env, r, q, consumers[i], ts, before);
        InsertingInTurn(before, rows, more);
        OneMoreConsumer(env, facts, before, r, ts, consumers, i);
        if entry.Some? {
          entries := entries + [entry.value];
        }
      }
      assert consumers[..|consumers|] == consumers;
    }
  }

  lemma {:induction false} WritesStayInvisible(env: Env, f: Facts, evidence: seq<Evidence>, r: Request,
      ts: seq<Target>, consumers: seq<Consumer>)
    ensures SameCollections(evidence, InsertedAll(evidence, Writes(env, f, evidence, r, ts, consumers)))
  {
    AllWritesAreNotCollections(env, f, evidence, r, ts, consumers);
    InsertingKeepsCollections(evidence, Writes(env, f, evidence, r, ts, consumers));
  }

  lemma {:induction false} OneMoreConsumer(env: Env, f: Facts, evidence: seq<Evidence>, r: Request, ts: seq<Target>,
      consumers: seq<Consumer>, i: nat)
    requires i < |consumers|
    ensures var items := ItemsOf(env, f, evidence, r, ts, consumers[i].id);
            && Entries(env, f, evidence, r, ts, consumers[..i + 1])
               == Entries(env, f, evidence, r, ts, consumers[..i])
                  + (match EntryOf(r, consumers[i], items) case Some(entry) => [entry] case None => [])
            && Writes(env, f, evidence, r, ts, consumers[..i + 1])
               == Writes(env, f, evidence, r, ts, consumers[..i]) + RowsToWrite(env, r, consumers[i].id, items)
  {
    assert consumers[..i + 1][..i] == consumers[..i];
  }

  // ---------------------------------------------------------------------
  // Which evidence finds its row
  // ---------------------------------------------------------------------

  ghost predicate Injective(f: string -> string) {
    forall a, b :: f(a) == f(b) ==> a == b
  }

  // The kinds of evidence that only this endpoint writes.
  predicate Written(s: Source) {
    s == RuntimeUsage || s == StaticCallSite
  }

  // The text a row's id is made of.
  function RowText(e: Evidence): string {
    EvidenceText(e.diffId, e.service, e.consumer, e.source, e.op.GetOr(""), e.field.GetOr(""))
  }

  // Two rows are about the same operation and field of one consumer and diff.
  predicate SameItem(a: Evidence, b: Evidence) {
    && a.diffId == b.diffId && a.service == b.service && a.consumer == b.consumer
    && a.source == b.source && a.op == b.op && a.field == b.field
  }

  // The primary key, and who gives which ids.
  ghost predicate TableOk(env: Env, rows: seq<Evidence>) {
    && (forall a, b :: a in rows && b in rows && a.id == b.id ==> a == b)
    && (forall a :: a in rows && Written(a.source) ==> a.op.Some? && a.field.Some? && a.id == env.uuid5(RowText(a)))
    && (forall a, b: Evidence :: a in rows && !Written(a.source) && Written(b.source) ==> a.id != env.uuid5(RowText(b)))
  }

  ghost predicate HasOwnRow(rows: seq<Evidence>, e: Evidence) {
    exists row :: row in rows && row.id == e.id && SameItem(row, e)
  }

  // No two rows of these kinds, stored or to be written, read the same without
  // being about the same item.
  ghost predicate NoClash(stored: seq<Evidence>, rows: seq<Evidence>) {
    forall a, b :: b in rows && (a in stored || a in rows) && Written(a.source) && RowText(a) == RowText(b)
      ==> SameItem(a, b)
  }

  ghost predicate AllWritten(env: Env, rows: seq<Evidence>) {
    forall e :: e in rows ==> Written(e.source) && e.op.Some? && e.field.Some? && e.id == env.uuid5(RowText(e))
  }

  lemma {:induction false} InsertedMembers(stored: seq<Evidence>, rows: seq<Evidence>, e: Evidence)
    ensures e in stored ==> e in InsertedAll(stored, rows)
    ensures e in InsertedAll(stored, rows) ==> e in stored || e in rows
  {
    if rows != [] {
      var init, last := rows[..|rows| - 1], rows[|rows| - 1];
      assert rows == init + [last];
      InsertedMembers(stored, init, e);
    }
  }

  lemma OneMoreRowIsOk(env: Env, stored: seq<Evidence>, e: Evidence)
    requires TableOk(env, stored) && Written(e.source) && e.op.Some? && e.field.Some? && e.id == env.uuid5(RowText(e))
    ensures TableOk(env, Inserted(stored, e))
  {
  }

  // Writing back keeps the table in order.
  lemma {:induction false} InsertingKeepsTable(env: Env, stored: seq<Evidence>, rows: seq<Evidence>)
    requires TableOk(env, stored) && AllWritten(env, rows)
    ensures TableOk(env, InsertedAll(stored, rows))
  {
    if rows != [] {
      var init, last := rows[..|rows| - 1], rows[|rows| - 1];
      assert rows == init + [last];
      InsertingKeepsTable(env, stored, init);
      OneMoreRowIsOk(env, InsertedAll(stored, init), last);
    }
  }

  lemma ItemsAreWritten(env: Env, r: Request, consumer: string, items: Items)
    ensures AllWritten(env, RowsToWrite(env, r, consumer, items))
  {
  }

  lemma {:induction false} RowsAreWritten(env: Env, f: Facts, evidence: seq<Evidence>, r: Request, ts: seq<Target>,
      consumers: seq<Consumer>)
    ensures AllWritten(env, Writes(env, f, evidence, r, ts, consumers))
  {
    if consumers != [] {
      var c := consumers[|consumers| - 1];
      RowsAreWritten(env, f, evidence, r, ts, consumers[..|consumers| - 1]);
      ItemsAreWritten(env, r, c.id, ItemsOf(env, f, evidence, r, ts, c.id));
    }
  }

  lemma {:induction false} InsertingKeepsExactly(env: Env, stored: seq<Evidence>, rows: seq<Evidence>)
    requires Injective(env.uuid5) && TableOk(env, stored) && AllWritten(env, rows)
    ensures (forall e :: e in rows ==> HasOwnRow(InsertedAll(stored, rows), e)) <==> NoClash(stored, rows)
  {
    var after := InsertedAll(stored, rows);
    InsertingKeepsTable(env, stored, rows);
    if NoClash(stored, rows) {
      forall e | e in rows ensures HasOwnRow(after, e) {
        InsertedIdsArePresent(stored, rows, e.id);
        var row :| row in after && row.id == e.id;
        InsertedMembers(stored, rows, row);
      }
    }
    if forall e :: e in rows ==> HasOwnRow(after, e) {
      forall a, b | b in rows && (a in stored || a in rows) && Written(a.source) && RowText(a) == RowText(b)
        ensures SameItem(a, b)
      {
        InsertedMembers(stored, rows, a);
        var own :| own in after && own.id == b.id && SameItem(own, b);
        if a in rows {
          var row :| row in after && row.id == a.id && SameItem(row, a);
        }
      }
    }
  }

  // After a request, every listed item has a row with its own operation and field
  // exactly if no other item, listed or stored, reads the same.
  lemma {:induction false} EvidenceIsKeptExactly(env: Env, f: Facts, evidence: seq<Evidence>, r: Request,
      paths: seq<string>)
    requires Injective(env.uuid5) && TableOk(env, evidence)
    ensures var rows := Writes(env, f, evidence, r, Targets(paths), ConcernedConsumers(f, evidence, r));
            && TableOk(env, EvidenceAfter(env, f, evidence, r, paths))
            && ((forall e :: e in rows ==> HasOwnRow(EvidenceAfter(env, f, evidence, r, paths), e))
                <==> NoClash(evidence, rows))
  {
    var consumers := ConcernedConsumers(f, evidence, r);
    var rows := Writes(env, f, evidence, r, Targets(paths), consumers);
    RowsAreWritten(env, f, evidence, r, Targets(paths), consumers);
    InsertingKeepsTable(env, evidence, rows);
    InsertingKeepsExactly(env, evidence, rows);
  }

  // ---------------------------------------------------------------------
  // Which items read the same
  // ---------------------------------------------------------------------

  // A part of the first field stands at the end of the second operation.
  ghost predicate Shifted(op1: string, field1: string, op2: string, field2: string) {
    exists mid :: op2 == op1 + (":" + mid) && field1 == mid + (":" + field2)
  }

  lemma ColonAfter(op: string, field: string)
    ensures var s := op + (":" + field); s[|op|] == ':' && s[..|op|] == op && s[|op| + 1..] == field
  {
  }

  lemma ShiftReadsTheSame(op: string, mid: string, field: string)
    ensures op + (":" + (mid + (":" + field))) == (op + (":" + mid)) + (":" + field)
  {
  }

  lemma LongerIsShifted(op1: string, field1: string, op2: string, field2: string)
    requires op1 + (":" + field1) == op2 + (":" + field2) && |op1| < |op2|
    ensures Shifted(op1, field1, op2, field2)
  {
    var s := op1 + (":" + field1);
    var mid := op2[|op1| + 1..];
    ColonAfter(op1, field1);
    ColonAfter(op2, field2);
    assert op2 == s[..|op2|];
    assert op2[..|op1|] == op1 && op2[|op1|] == ':';
    assert op2 == op1 + (":" + mid);
    ShiftReadsTheSame(op1, mid, field2);
    assert ":" + field1 == s[|op1|..] == ":" + (mid + (":" + field2));
    assert field1 == (":" + field1)[1..] == mid + (":" + field2);
  }

  // Operation and field, joined with a colon, determine each other up to a shift.
  lemma PairsAgreeExactly(op1: string, field1: string, op2: string, field2: string)
    ensures op1 + (":" + field1) == op2 + (":" + field2)
       <==> (op1 == op2 && field1 == field2) || Shifted(op1, field1, op2, field2) || Shifted(op2, field2, op1, field1)
  {
    if op1 + (":" + field1) == op2 + (":" + field2) {
      if |op1| < |op2| {
        LongerIsShifted(op1, field1, op2, field2);
      } else if |op2| < |op1| {
        LongerIsShifted(op2, field2, op1, field1);
      } else {
        ColonAfter(op1, field1);
        ColonAfter(op2, field2);
      }
    }
    if mid :| op2 == op1 + (":" + mid) && field1 == mid + (":" + field2) {
      ShiftReadsTheSame(op1, mid, field2);
    }
    if mid :| op1 == op2 + (":" + mid) && field2 == mid + (":" + field1) {
      ShiftReadsTheSame(op2, mid, field1);
    }
  }

  // In front of its first colon a text without colons delimits itself.
  lemma PlainHeadsAreDistinct(a: string, x: string, b: string, y: string)
    requires ':' !in a && ':' !in b
    ensures a + (":" + x) == b + (":" + y) <==> a == b && x == y
  {
    FirstColon(a, x);
    FirstColon(b, y);
  }

  lemma FirstColon(a: string, x: string)
    requires ':' !in a
    ensures var s := a + (":" + x);
            && s[|a|] == ':' && s[..|a|] == a && s[|a| + 1..] == x
            && forall i :: 0 <= i < |a| ==> s[i] != ':'
  {
  }

  lemma TextRegrouped(d: string, s: string, c: string, k: string, pair: string)
    ensures ("blast_radius:" + d + ":" + s + ":" + c + ":" + k + ":") + pair
         == "blast_radius" + (":" + (d + (":" + (s + (":" + (c + (":" + (k + (":" + pair)))))))))
  {
  }

  predicate PlainIds(e: Evidence) {
    ':' !in e.diffId && ':' !in e.service && ':' !in e.consumer
  }

  lemma KindsArePlain(a: Source, b: Source)
    requires Written(a) && Written(b)
    ensures ':' !in SourceName(a) && (SourceName(a) == SourceName(b) <==> a == b)
  {
    assert "runtime_usage"[0] == 'r' && "static_call_site"[0] == 's';
  }

  ghost predicate ShiftedRows(a: Evidence, b: Evidence) {
    Shifted(a.op.GetOr(""), a.field.GetOr(""), b.op.GetOr(""), b.field.GetOr(""))
  }

  // With identifiers without colons, two rows read the same exactly if they are of
  // one diff, service, consumer and kind, with equal or shifted pairs.
  lemma EvidenceRowsCollideExactly(env: Env, a: Evidence, b: Evidence)
    requires Injective(env.uuid5) && AllWritten(env, [a, b]) && PlainIds(a) && PlainIds(b)
    ensures a.id == b.id
       <==> && a.diffId == b.diffId && a.service == b.service && a.consumer == b.consumer && a.source == b.source
            && (SameItem(a, b) || ShiftedRows(a, b) || ShiftedRows(b, a))
  {
    assert a in [a, b] && b in [a, b];
    RowTextsAgreeExactly(a, b);
  }

  lemma RowTextsAgreeExactly(a: Evidence, b: Evidence)
    requires Written(a.source) && Written(b.source) && PlainIds(a) && PlainIds(b)
    requires a.op.Some? && a.field.Some? && b.op.Some? && b.field.Some?
    ensures RowText(a) == RowText(b)
       <==> && a.diffId == b.diffId && a.service == b.service && a.consumer == b.consumer && a.source == b.source
            && (SameItem(a, b) || ShiftedRows(a, b) || ShiftedRows(b, a))
  {
    var p, q := a.op.value + (":" + a.field.value), b.op.value + (":" + b.field.value);
    var k, l := SourceName(a.source), SourceName(b.source);
    TextRegrouped(a.diffId, a.service, a.consumer, k, p);
    TextRegrouped(b.diffId, b.service, b.consumer, l, q);
    KindsArePlain(a.source, b.source);
    KindsArePlain(b.source, a.source);
    SixParts(a.diffId, a.service, a.consumer, k, p, b.diffId, b.service, b.consumer, l, q);
    PairsAgreeExactly(a.op.value, a.field.value, b.op.value, b.field.value);
  }

  lemma SixParts(d1: string, s1: string, c1: string, k1: string, p1: string,
      d2: string, s2: string, c2: string, k2: string, p2: string)
    requires ':' !in d1 && ':' !in d2 && ':' !in s1 && ':' !in s2
    requires ':' !in c1 && ':' !in c2 && ':' !in k1 && ':' !in k2
    ensures "blast_radius" + (":" + (d1 + (":" + (s1 + (":" + (c1 + (":" + (k1 + (":" + p1)))))))))
         == "blast_radius" + (":" + (d2 + (":" + (s2 + (":" + (c2 + (":" + (k2 + (":" + p2)))))))))
       <==> d1 == d2 && s1 == s2 && c1 == c2 && k1 == k2 && p1 == p2
  {
    PlainHeadsAreDistinct(k1, p1, k2, p2);
    var x1, x2 := k1 + (":" + p1), k2 + (":" + p2);
    PlainHeadsAreDistinct(c1, x1, c2, x2);
    var y1, y2 := c1 + (":" + x1), c2 + (":" + x2);
    PlainHeadsAreDistinct(s1, y1, s2, y2);
    var z1, z2 := s1 + (":" + y1), s2 + (":" + y2);
    PlainHeadsAreDistinct(d1, z1, d2, z2);
    PlainHeadsAreDistinct("blast_radius", d1 + (":" + z1), "blast_radius", d2 + (":" + z2));
  }

  // No other item of a consumer's kind has a shifted pair.
  ghost predicate NoShift(stored: seq<Evidence>, rows: seq<Evidence>) {
    forall a, b :: b in rows && (a in stored || a in rows) && a.source == b.source
                   && a.diffId == b.diffId && a.service == b.service && a.consumer == b.consumer
      ==> SameItem(a, b) || (!ShiftedRows(a, b) && !ShiftedRows(b, a))
  }

  // So with such identifiers a listed item is dropped exactly by a shifted pair.
  lemma {:induction false} ShiftsLoseExactly(env: Env, f: Facts, evidence: seq<Evidence>, r: Request,
      paths: seq<string>)
    requires Injective(env.uuid5) && TableOk(env, evidence)
    requires var rows := Writes(env, f, evidence, r, Targets(paths), ConcernedConsumers(f, evidence, r));
             forall e :: e in evidence || e in rows ==> PlainIds(e)
    ensures var rows := Writes(env, f, evidence, r, Targets(paths), ConcernedConsumers(f, evidence, r));
            (forall e :: e in rows ==> HasOwnRow(EvidenceAfter(env, f, evidence, r, paths), e))
            <==> NoShift(evidence, rows)
  {
    var consumers := ConcernedConsumers(f, evidence, r);
    var rows := Writes(env, f, evidence, r, Targets(paths), consumers);
    EvidenceIsKeptExactly(env, f, evidence, r, paths);
    RowsAreWritten(env, f, evidence, r, Targets(paths), consumers);
    ClashIsShift(env, evidence, rows);
  }

  lemma ClashIsShift(env: Env, stored: seq<Evidence>, rows: seq<Evidence>)
    requires TableOk(env, stored) && AllWritten(env, rows) && forall e :: e in stored || e in rows ==> PlainIds(e)
    ensures NoClash(stored, rows) <==> NoShift(stored, rows)
  {
    forall a, b | b in rows && (a in stored || a in rows) && Written(a.source)
      ensures RowText(a) == RowText(b)
         <==> && a.diffId == b.diffId && a.service == b.service && a.consumer == b.consumer && a.source == b.source
              && (SameItem(a, b) || ShiftedRows(a, b) || ShiftedRows(b, a))
    {
      RowTextsAgreeExactly(a, b);
    }
  }

  // ---------------------------------------------------------------------
  // A lost row
  // ---------------------------------------------------------------------

  lemma AbsentDoesNotOccur(s: string, pattern: string, k: nat, at: nat)
    requires k < |pattern| && pattern[k] !in s
    ensures !OccursAt(s, pattern, at)
  {
    if at + |pattern| <= |s| {
      assert s[at..at + |pattern|][k] == s[at + k];
    }
  }

  lemma PlainPath(path: string)
    requires ARROW[1] !in path
    ensures TargetOf(path) == Operation(path)
  {
    forall at: nat ensures !OccursAt(path, ARROW, at) {
      AbsentDoesNotOccur(path, ARROW, 1, at);
    }
  }

  lemma BothPicked<T(!new)>(a: T, b: T, at: T -> nat, picked: seq<T>)
    requires a != b && Newest([a, b], at, LIMIT, picked)
    ensures a in picked && b in picked
  {
    assert |multiset(picked)| == |multiset([a, b])|;
    assert multiset([a, b]) == multiset(picked) + (multiset([a, b]) - multiset(picked));
    assert multiset(picked) == multiset([a, b]);
    assert a in multiset(picked) && b in multiset(picked);
  }

  const FIRST_EVENT := UsageEvent("c", "s", "GET /a", "b:c", 31 * DAY)
  const SECOND_EVENT := UsageEvent("c", "s", "GET /a:b", "c", 31 * DAY)
  const LOST_FACTS := Facts([Consumer("c", "")], {("c", "s")}, [FIRST_EVENT, SECOND_EVENT], [])
  const LOST_REQUEST := Request("d", "s", "", "", None, 31 * DAY)
  const LOST_PATHS := ["GET /a", "GET /a:b"]

  lemma BothHaveChanged()
    ensures var ts := Targets(LOST_PATHS); Operation("GET /a") in ts && Operation("GET /a:b") in ts
  {
    PlainPath("GET /a");
    PlainPath("GET /a:b");
    var ts := Targets(LOST_PATHS);
    assert ts[0] in ts && ts[1] in ts;
  }

  lemma BothAreRelevant()
    ensures UsageRows(LOST_FACTS, LOST_REQUEST, Targets(LOST_PATHS), "c") == [FIRST_EVENT, SECOND_EVENT]
    ensures ConcernedConsumers(LOST_FACTS, [], LOST_REQUEST) == [Consumer("c", "")]
  {
    BothUsesAreRelevant();
    FilterAll(LOST_FACTS.consumers, c => Concerned(LOST_FACTS, [], LOST_REQUEST, c));
  }

  lemma {:induction false} AllUsesAreRelevant(f: Facts, r: Request, ts: seq<Target>, consumer: string)
    requires forall e :: e in f.usage ==>
               e.consumer == consumer && e.service == r.service && e.at >= r.now - 30 * DAY
               && UsageHit(ts, e.op, e.field)
    ensures UsageRows(f, r, ts, consumer) == f.usage
  {
    FilterAll(f.usage, (e: UsageEvent) =>
      e.consumer == consumer && e.service == r.service && e.at >= r.now - 30 * DAY && UsageHit(ts, e.op, e.field));
  }

  lemma {:induction false} BothUsesAreRelevant()
    ensures UsageRows(LOST_FACTS, LOST_REQUEST, Targets(LOST_PATHS), "c") == [FIRST_EVENT, SECOND_EVENT]
  {
    BothHaveChanged();
    var ts := Targets(LOST_PATHS);
    assert UsageHit(ts, FIRST_EVENT.op, FIRST_EVENT.field) && UsageHit(ts, SECOND_EVENT.op, SECOND_EVENT.field);
    AllUsesAreRelevant(LOST_FACTS, LOST_REQUEST, ts, "c");
  }

  lemma {:induction false} BothAreListed(env: Env)
    requires EnvOk(env)
    ensures var rows := Writes(env, LOST_FACTS, [], LOST_REQUEST, Targets(LOST_PATHS),
                               ConcernedConsumers(LOST_FACTS, [], LOST_REQUEST));
            && UsageEvidence(env, LOST_REQUEST, "c", FIRST_EVENT) in rows
            && UsageEvidence(env, LOST_REQUEST, "c", SECOND_EVENT) in rows
  {
    BothAreRelevant();
    var ts, consumers := Targets(LOST_PATHS), [Consumer("c", "")];
    var picked := env.newestUsage([FIRST_EVENT, SECOND_EVENT]);
    BothPicked(FIRST_EVENT, SECOND_EVENT, (e: UsageEvent) => e.at, picked);
    RecentMembers(picked, (e: UsageEvent) => e.at, None, FIRST_EVENT);
    RecentMembers(picked, (e: UsageEvent) => e.at, None, SECOND_EVENT);
    var items := ItemsOf(env, LOST_FACTS, [], LOST_REQUEST, ts, "c");
    ListedIsWritten(env, LOST_REQUEST, "c", items, FIRST_EVENT);
    ListedIsWritten(env, LOST_REQUEST, "c", items, SECOND_EVENT);
    assert consumers[..0] == [];
    assert Writes(env, LOST_FACTS, [], LOST_REQUEST, ts, consumers)
        == Writes(env, LOST_FACTS, [], LOST_REQUEST, ts, []) + RowsToWrite(env, LOST_REQUEST, "c", items);
  }

  lemma ListedIsWritten(env: Env, r: Request, consumer: string, items: Items, e: UsageEvent)
    requires e in items.usage
    ensures UsageEvidence(env, r, consumer, e) in RowsToWrite(env, r, consumer, items)
  {
    var i :| 0 <= i < |items.usage| && items.usage[i] == e;
    assert RowsToWrite(env, r, consumer, items)[i] == UsageEvidence(env, r, consumer, e);
  }

  lemma {:induction false} ClashLosesARow(env: Env, f: Facts, r: Request, paths: seq<string>, a: Evidence, b: Evidence)
    requires Injective(env.uuid5)
    requires var rows := Writes(env, f, [], r, Targets(paths), ConcernedConsumers(f, [], r)); a in rows && b in rows
    requires Written(a.source) && RowText(a) == RowText(b) && !SameItem(a, b)
    ensures var rows := Writes(env, f, [], r, Targets(paths), ConcernedConsumers(f, [], r));
            exists e :: e in rows && !HasOwnRow(EvidenceAfter(env, f, [], r, paths), e)
  {
    EvidenceIsKeptExactly(env, f, [], r, paths);
  }

  lemma BothReadTheSame(env: Env)
    ensures var a := UsageEvidence(env, LOST_REQUEST, "c", FIRST_EVENT);
            var b := UsageEvidence(env, LOST_REQUEST, "c", SECOND_EVENT);
            Written(a.source) && RowText(a) == RowText(b) && !SameItem(a, b)
  {
    assert "GET /a" + (":" + "b:c") == "GET /a:b" + (":" + "c");
    assert |"GET /a"| != |"GET /a:b"|;
  }

  // Two operations that changed, each used by the consumer: one of the two listed
  // uses has no row after the request.
  lemma {:induction false} ColonsLoseARow(env: Env)
    requires EnvOk(env) && Injective(env.uuid5)
    ensures var rows := Writes(env, LOST_FACTS, [], LOST_REQUEST, Targets(LOST_PATHS),
                               ConcernedConsumers(LOST_FACTS, [], LOST_REQUEST));
            exists e :: e in rows && !HasOwnRow(EvidenceAfter(env, LOST_FACTS, [], LOST_REQUEST, LOST_PATHS), e)
  {
    BothAreListed(env);
    BothReadTheSame(env);
    ClashLosesARow(env, LOST_FACTS, LOST_REQUEST, LOST_PATHS,
                   UsageEvidence(env, LOST_REQUEST, "c", FIRST_EVENT),
                   UsageEvidence(env, LOST_REQUEST, "c", SECOND_EVENT));
  }

  // ---------------------------------------------------------------------
  // Asking again when the database picks other rows among equally old ones
  // ---------------------------------------------------------------------

  // The verdict about every consumer is the same even then.
  lemma AskingAgainKeepsVerdicts(env: Env, other: Env, f: Facts, evidence: seq<Evidence>, r: Request,
      paths: seq<string>, c: Consumer)
    requires EnvOk(env) && EnvOk(other)
    ensures var after := EvidenceAfter(env, f, evidence, r, paths);
            var first := EntryOf(r, c, ItemsOf(env, f, evidence, r, Targets(paths), c.id));
            var second := EntryOf(r, c, ItemsOf(other, f, after, r, Targets(paths), c.id));
            && ConcernedConsumers(f, after, r) == ConcernedConsumers(f, evidence, r)
            && (first.Some? <==> second.Some?) && (first.Some? ==> first.value.verdict == second.value.verdict)
  {
    var ts, consumers := Targets(paths), ConcernedConsumers(f, evidence, r);
    var after := EvidenceAfter(env, f, evidence, r, paths);
    WritesStayInvisible(env, f, evidence, r, ts, consumers);
    SameConcerned(f, evidence, after, r);
    SameRows(evidence, after, r, ts, c.id);
    VerdictIsThatOfAllRows(env, f, evidence, r, ts, c);
    VerdictIsThatOfAllRows(other, f, after, r, ts, c);
  }
}
