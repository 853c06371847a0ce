/**
 * The fixed-window rate limiter of radar-api/src/lib.rs.
 *
 * Instants are nanoseconds of one monotone clock. `CheckAndRecord` reads the
 * clock under the lock; `PruneStale` reads it before taking the lock, so the
 * instant it works with may lie before that of a check served just earlier.
 */
module RateLimiter {

  const WINDOW: int := 60_000_000_000

  datatype Bucket = Bucket(count: nat, start: int)

  type Table = map<string, Bucket>

  // Elapsed time saturates at zero when the start lies in the future.
  function Since(now: int, start: int): int {
    if now < start then 0 else now - start
  }

  // ---------------------------------------------------------------------
  // What one call does to the table
  // ---------------------------------------------------------------------

  function Lookup(t: Table, key: string, now: int): Bucket {
    if key in t then t[key] else Bucket(0, now)
  }

  function Admits(b: Bucket, max: nat, now: int): bool {
    Since(now, b.start) >= WINDOW || b.count < max
  }

  function Charged(b: Bucket, max: nat, now: int): Bucket {
    if Since(now, b.start) >= WINDOW then Bucket(1, now)
    else if b.count < max then Bucket(b.count + 1, b.start)
    else b
  }

  function Allowed(t: Table, max: nat, key: string, now: int): bool {
    max == 0 || Admits(Lookup(t, key, now), max, now)
  }

  function Checked(t: Table, max: nat, key: string, now: int): Table {
    if max == 0 then t else t[key := Charged(Lookup(t, key, now), max, now)]
  }

  function Pruned(t: Table, now: int): Table {
    map k | k in t && Since(now, t[k].start) < 2 * WINDOW :: t[k]
  }

  class RateLimiter {
    var state: map<string, Bucket>
    const maxPerMinute: nat

    ghost predicate Valid()
      reads this
    {
      forall k :: k in state ==> 1 <= state[k].count <= maxPerMinute
    }

    constructor (max: nat)
      ensures state == map[] && maxPerMinute == max && Valid()
    {
      state := map[];
      maxPerMinute := max;
    }

    method PruneStale(now: int)
      requires Valid()
      modifies this
      ensures Valid()
      ensures state == Pruned(old(state), now)
      ensures forall k :: k in old(state) ==> (k in state <==> now - old(state)[k].start < 120_000_000_000)
    {
      state := map k | k in state && Since(now, state[k].start) < WINDOW * 2 :: state[k];
    }

    // The counter never exceeds the 32-bit limit it is compared with.
    method CheckAndRecord(key: string, now: int) returns (allowed: bool)
      requires Valid()
      modifies this
      ensures Valid()
      ensures allowed == Allowed(old(state), maxPerMinute, key, now)
      ensures state == Checked(old(state), maxPerMinute, key, now)
    {
      if maxPerMinute == 0 {
        return true;
      }
      if key !in state {
        state := state[key := Bucket(0, now)];
      }
      var entry := state[key];
      if Since(now, entry.start) >= WINDOW {
        state := state[key := Bucket(1, now)];
        allowed := true;
      } else if entry.count < maxPerMinute {
        state := state[key := Bucket(entry.count + 1, entry.start)];
        allowed := true;
      } else {
        allowed := false;
      }
    }
  }

  // ---------------------------------------------------------------------
  // Runs: the calls in the order in which they obtain the lock
  // ---------------------------------------------------------------------

  datatype Call = Check(key: string, now: int) | Prune(now: int)

  // A check never sees an instant before that of any call that held the lock
  // earlier; a prune may.
  ghost predicate ClockOk(calls: seq<Call>) {
    forall i, j :: 0 <= i < j < |calls| && calls[j].Check? ==> calls[i].now <= calls[j].now
  }

  function After(t: Table, max: nat, c: Call): Table {
    match c
    case Check(key, now) => Checked(t, max, key, now)
    case Prune(now) => Pruned(t, now)
  }

  // The answers given to the checks of a run, in order.
  function Answers(t: Table, max: nat, calls: seq<Call>): seq<bool>
    decreases |calls|
  {
    if calls == [] then []
    else
      (if calls[0].Check? then [Allowed(t, max, calls[0].key, calls[0].now)] else [])
      + Answers(After(t, max, calls[0]), max, calls[1..])
  }

  // How many checks of `key` with lo <= now <= hi a run allows.
  function Granted(t: Table, max: nat, calls: seq<Call>, key: string, lo: int, hi: int): nat
    decreases |calls|
  {
    if calls == [] then 0
    else
      var c := calls[0];
      (if c.Check? && c.key == key && lo <= c.now <= hi && Allowed(t, max, key, c.now) then 1 else 0)
      + Granted(After(t, max, c), max, calls[1..], key, lo, hi)
  }

  function WithoutPrunes(calls: seq<Call>): (r: seq<Call>)
    ensures forall c :: c in r ==> c in calls && c.Check?
  {
    if calls == [] then []
    else (if calls[0].Check? then [calls[0]] else []) + WithoutPrunes(calls[1..])
  }

  // ---------------------------------------------------------------------
  // Pruning is invisible
  // ---------------------------------------------------------------------

  // The pruned table misses only buckets whose window has long expired.
  ghost predicate Simulates(pruned: Table, full: Table, now: int) {
    && (forall k :: k in pruned ==> k in full && pruned[k] == full[k])
    && (forall k :: k in full && k !in pruned ==> now - full[k].start >= WINDOW)
  }

  ghost predicate AllChecksFrom(calls: seq<Call>, now: int) {
    forall i :: 0 <= i < |calls| && calls[i].Check? ==> now <= calls[i].now
  }

  lemma {:induction false} PruningSimulates(pruned: Table, full: Table, max: nat, calls: seq<Call>, now: int,
                                             k: string, lo: int, hi: int)
    requires ClockOk(calls) && AllChecksFrom(calls, now)
    requires Simulates(pruned, full, now)
    ensures Answers(pruned, max, calls) == Answers(full, max, WithoutPrunes(calls))
    ensures Granted(pruned, max, calls, k, lo, hi) == Granted(full, max, WithoutPrunes(calls), k, lo, hi)
    decreases |calls|
  {
    if calls != [] {
      var c, rest := calls[0], calls[1..];
      RestIsOk(calls, now);
      match c
      case Check(key, t) =>
        assert WithoutPrunes(calls) == [c] + WithoutPrunes(rest);
        CheckSimulates(pruned, full, max, key, now, t);
        PruningSimulates(After(pruned, max, c), After(full, max, c), max, rest, t, k, lo, hi);
      case Prune(t) =>
        assert WithoutPrunes(calls) == WithoutPrunes(rest);
        PruningSimulates(Pruned(pruned, t), full, max, rest, if t < now then now else t, k, lo, hi);
    }
  }

  lemma RestIsOk(calls: seq<Call>, now: int)
    requires calls != [] && ClockOk(calls) && AllChecksFrom(calls, now)
    ensures ClockOk(calls[1..]) && AllChecksFrom(calls[1..], if calls[0].now < now then now else calls[0].now)
  {
    assert forall i :: 0 <= i < |calls[1..]| ==> calls[1..][i] == calls[i + 1];
  }

  lemma CheckSimulates(pruned: Table, full: Table, max: nat, key: string, now: int, t: int)
    requires Simulates(pruned, full, now) && now <= t
    ensures Allowed(pruned, max, key, t) == Allowed(full, max, key, t)
    ensures Simulates(Checked(pruned, max, key, t), Checked(full, max, key, t), t)
  {
  }

  // The instant of the first check of a run.
  function FirstCheck(calls: seq<Call>): int {
    if calls == [] then 0 else if calls[0].Check? then calls[0].now else FirstCheck(calls[1..])
  }

  lemma {:induction false} FirstCheckIsLeast(calls: seq<Call>)
    requires ClockOk(calls)
    ensures AllChecksFrom(calls, FirstCheck(calls))
  {
    if calls != [] && calls[0].Prune? {
      assert forall i :: 1 <= i < |calls| ==> calls[i] == calls[1..][i - 1];
      FirstCheckIsLeast(calls[1..]);
    }
  }

  // Interleaving prunes anywhere in a run changes no answer.
  lemma {:induction false} PruningIsInvisible(max: nat, calls: seq<Call>)
    requires ClockOk(calls)
    ensures Answers(map[], max, calls) == Answers(map[], max, WithoutPrunes(calls))
  {
    FirstCheckIsLeast(calls);
    PruningSimulates(map[], map[], max, calls, FirstCheck(calls), "", 0, 0);
  }

  // ---------------------------------------------------------------------
  // The bound over any interval
  // ---------------------------------------------------------------------

  ghost predicate Monotone(calls: seq<Call>, from: int) {
    && ClockOk(calls)
    && (forall i :: 0 <= i < |calls| ==> calls[i].Check? && from <= calls[i].now)
  }

  // Requests a bucket can still let through up to `hi`.
  ghost function Room(t: Table, max: nat, key: string, from: int, hi: int): int {
    if hi < from then 0
    else if key !in t || from - t[key].start >= WINDOW then max * ((hi - from) / WINDOW + 1)
    else (max - t[key].count) + max * ((hi - t[key].start) / WINDOW)
  }

  ghost predicate Sane(t: Table, max: nat, key: string, from: int) {
    key in t ==> t[key].count <= max && t[key].start <= from
  }

  lemma RoomShrinks(t: Table, max: nat, key: string, from: int, later: int, hi: int)
    requires max > 0 && Sane(t, max, key, from) && from <= later
    ensures Room(t, max, key, later, hi) <= Room(t, max, key, from, hi)
  {
    if hi < later {
      if from <= hi {
        assert (hi - from) / WINDOW >= 0;
        if key in t { assert (hi - t[key].start) / WINDOW >= 0; }
      }
    } else if key !in t || from - t[key].start >= WINDOW {
      TimesMonotone(max, (hi - later) / WINDOW + 1, (hi - from) / WINDOW + 1);
    } else if later - t[key].start >= WINDOW {
      TimesMonotone(max, (hi - later) / WINDOW + 1, (hi - t[key].start) / WINDOW);
    }
  }

  lemma TimesMonotone(m: nat, a: int, b: int)
    requires a <= b
    ensures m * a <= m * b
  {
  }

  // One allowed check uses up one unit of room.
  lemma ChargeTakesRoom(t: Table, max: nat, key: string, now: int, hi: int)
    requires max > 0 && Sane(t, max, key, now) && now <= hi
    ensures Sane(Checked(t, max, key, now), max, key, now)
    ensures Room(Checked(t, max, key, now), max, key, now, hi)
         <= Room(t, max, key, now, hi) - (if Allowed(t, max, key, now) then 1 else 0)
  {
  }

  lemma {:induction false} GrantedWithinRoom(t: Table, max: nat, calls: seq<Call>, key: string, from: int, hi: int)
    requires max > 0 && Monotone(calls, from) && Sane(t, max, key, from)
    ensures Granted(t, max, calls, key, from, hi) <= Room(t, max, key, from, hi)
    decreases |calls|
  {
    if calls == [] {
      RoomShrinks(t, max, key, from, if hi < from then from else hi + 1, hi);
    } else {
      var c, rest := calls[0], calls[1..];
      assert forall i :: 0 <= i < |rest| ==> rest[i] == calls[i + 1];
      var t' := After(t, max, c);
      RoomShrinks(t, max, key, from, c.now, hi);
      SameGrants(t', max, rest, key, from, c.now, hi);
      if c.key == key && c.now <= hi {
        ChargeTakesRoom(t, max, key, c.now, hi);
      }
      GrantedWithinRoom(t', max, rest, key, c.now, hi);
    }
  }

  // The lower end of the interval may be moved up to the first instant of the run.
  lemma {:induction false} SameGrants(t: Table, max: nat, calls: seq<Call>, key: string, lo: int, lo': int, hi: int)
    requires Monotone(calls, lo') && lo <= lo'
    ensures Granted(t, max, calls, key, lo, hi) == Granted(t, max, calls, key, lo', hi)
    decreases |calls|
  {
    if calls != [] {
      var rest := calls[1..];
      assert forall i :: 0 <= i < |rest| ==> rest[i] == calls[i + 1];
      SameGrants(After(t, max, calls[0]), max, rest, key, lo, lo', hi);
    }
  }

  lemma RoomInInterval(t: Table, max: nat, key: string, at: int, lo: int, windows: nat)
    requires max > 0 && Sane(t, max, key, at) && lo <= at
    ensures Room(t, max, key, at, lo + windows * WINDOW) <= (windows + 1) * max
  {
    var hi := lo + windows * WINDOW;
    if at <= hi {
      if key !in t || at - t[key].start >= WINDOW {
        TimesMonotone(max, (hi - at) / WINDOW + 1, windows + 1);
      } else {
        TimesMonotone(max, (hi - t[key].start) / WINDOW, windows);
      }
    } else {
      TimesMonotone(max, 0, windows + 1);
    }
  }

  lemma {:induction false} GrantedInInterval(t: Table, max: nat, calls: seq<Call>, key: string, from: int, lo: int,
      windows: nat)
    requires max > 0 && Monotone(calls, from) && Sane(t, max, key, from)
    ensures Granted(t, max, calls, key, lo, lo + windows * WINDOW) <= (windows + 1) * max
    decreases |calls|
  {
    var hi := lo + windows * WINDOW;
    if calls == [] {
    } else if lo <= calls[0].now {
      var at := calls[0].now;
      assert Monotone(calls, at);
      GrantedWithinRoom(t, max, calls, key, at, hi);
      SameGrants(t, max, calls, key, lo, at, hi);
      RoomInInterval(t, max, key, at, lo, windows);
    } else {
      var rest := calls[1..];
      assert forall i :: 0 <= i < |rest| ==> rest[i] == calls[i + 1];
      GrantedInInterval(After(t, max, calls[0]), max, rest, key, calls[0].now, lo, windows);
    }
  }

  lemma {:induction false} ChecksAreMonotone(calls: seq<Call>, from: int)
    requires ClockOk(calls) && AllChecksFrom(calls, from)
    ensures Monotone(WithoutPrunes(calls), from)
  {
    if calls != [] {
      var c, rest := calls[0], calls[1..];
      assert forall i :: 0 <= i < |rest| ==> rest[i] == calls[i + 1];
      ChecksAreMonotone(rest, if c.Check? then c.now else from);
    }
  }

  lemma BoundInWindows(max: nat, calls: seq<Call>, key: string, lo: int, windows: nat)
    requires max > 0 && ClockOk(calls)
    ensures Granted(map[], max, calls, key, lo, lo + windows * WINDOW) <= (windows + 1) * max
  {
    var from, checks, hi := FirstCheck(calls), WithoutPrunes(calls), lo + windows * WINDOW;
    FirstCheckIsLeast(calls);
    PruningSimulates(map[], map[], max, calls, from, key, lo, hi);
    ChecksAreMonotone(calls, from);
    GrantedInInterval(map[], max, checks, key, from, lo, windows);
  }

  // No interval of k minutes, both ends included, sees more than (k + 1) times
  // the limit for one key, whatever prunes run in between.
  lemma RateBound(max: nat, calls: seq<Call>, key: string, lo: int, minutes: nat)
    requires max > 0 && ClockOk(calls)
    ensures Granted(map[], max, calls, key, lo, lo + minutes * 60_000_000_000) <= (minutes + 1) * max
  {
    BoundInWindows(max, calls, key, lo, minutes);
  }

  // ---------------------------------------------------------------------
  // Who is denied
  // ---------------------------------------------------------------------

  function TableAfter(t: Table, max: nat, calls: seq<Call>): Table
    decreases |calls|
  {
    if calls == [] then t else TableAfter(After(t, max, calls[0]), max, calls[1..])
  }

  lemma {:induction false} RunThen(t: Table, max: nat, calls: seq<Call>, c: Call, key: string, lo: int, hi: int)
    ensures var t' := TableAfter(t, max, calls);
            && TableAfter(t, max, calls + [c]) == After(t', max, c)
            && Answers(t, max, calls + [c])
               == Answers(t, max, calls) + (if c.Check? then [Allowed(t', max, c.key, c.now)] else [])
            && Granted(t, max, calls + [c], key, lo, hi)
               == Granted(t, max, calls, key, lo, hi)
                  + (if c.Check? && c.key == key && lo <= c.now <= hi && Allowed(t', max, key, c.now) then 1 else 0)
    decreases |calls|
  {
    if calls == [] {
      assert [] + [c] == [c] && [c][1..] == [];
    } else {
      assert (calls + [c])[0] == calls[0] && (calls + [c])[1..] == calls[1..] + [c];
      RunThen(After(t, max, calls[0]), max, calls[1..], c, key, lo, hi);
    }
  }

  ghost predicate AllChecksUpTo(calls: seq<Call>, hi: int) {
    forall i :: 0 <= i < |calls| && calls[i].Check? ==> calls[i].now <= hi
  }

  // What a bucket has counted was allowed since its window began.
  lemma {:induction false} CountIsEarned(max: nat, calls: seq<Call>, key: string, hi: int)
    requires max > 0 && ClockOk(calls) && AllChecksUpTo(calls, hi)
    ensures var t := TableAfter(map[], max, calls);
            key in t ==> t[key].start <= hi && t[key].count <= Granted(map[], max, calls, key, t[key].start, hi)
    decreases |calls|
  {
    if calls != [] {
      var init, c := calls[..|calls| - 1], calls[|calls| - 1];
      assert calls == init + [c];
      var t := TableAfter(map[], max, init);
      CountIsEarned(max, init, key, hi);
      if c.Check? {
        CountIsEarned(max, init, key, c.now);
      }
      var t' := After(t, max, c);
      RunThen(map[], max, init, c, key, if key in t' then t'[key].start else 0, hi);
    }
  }

  lemma {:induction false} GrantedWider(t: Table, max: nat, calls: seq<Call>, key: string, lo: int, lo': int, hi: int)
    requires lo <= lo'
    ensures Granted(t, max, calls, key, lo', hi) <= Granted(t, max, calls, key, lo, hi)
    decreases |calls|
  {
    if calls != [] {
      GrantedWider(After(t, max, calls[0]), max, calls[1..], key, lo, lo', hi);
    }
  }

  // A check is denied only if in the window up to it, its open end left out, as many
  // checks of the key were allowed as the limit says, wherever prunes ran before it.
  lemma {:induction false} DeniedOnlyAtLimit(max: nat, calls: seq<Call>, key: string, now: int)
    requires max > 0 && ClockOk(calls + [Check(key, now)])
    ensures var answers := Answers(map[], max, calls + [Check(key, now)]);
            && answers != []
            && (!answers[|answers| - 1] ==> Granted(map[], max, calls, key, now - 60_000_000_000 + 1, now) >= max)
  {
    var t, all := TableAfter(map[], max, calls), calls + [Check(key, now)];
    assert forall i :: 0 <= i < |calls| ==> all[i] == calls[i];
    assert all[|calls|] == Check(key, now);
    RunThen(map[], max, calls, Check(key, now), key, 0, 0);
    if !Allowed(t, max, key, now) {
      CountIsEarned(max, calls, key, now);
      GrantedWider(map[], max, calls, key, now - WINDOW + 1, t[key].start, now);
    }
  }

  // A limit of zero switches the limiter off.
  lemma {:induction false} ZeroIsUnlimited(t: Table, calls: seq<Call>)
    ensures forall i :: 0 <= i < |Answers(t, 0, calls)| ==> Answers(t, 0, calls)[i]
    decreases |calls|
  {
    if calls != [] {
      ZeroIsUnlimited(After(t, 0, calls[0]), calls[1..]);
    }
  }

  // ---------------------------------------------------------------------
  // The bound is attained
  // ---------------------------------------------------------------------

  // `n` checks of one key at one instant.
  function Burst(key: string, now: int, n: nat): seq<Call> {
    seq(n, _ => Check(key, now))
  }

  // A full burst at the start of each of `k + 1` consecutive windows.
  function Bursts(key: string, now: int, k: nat, max: nat): seq<Call>
    decreases k
  {
    Burst(key, now, max) + (if k == 0 then [] else Bursts(key, now + WINDOW, k - 1, max))
  }

  lemma {:induction false} BurstGranted(t: Table, max: nat, key: string, now: int, n: nat, rest: seq<Call>, lo: int,
      hi: int)
    requires max > 0 && lo <= now <= hi
    requires key in t && t[key].start == now && t[key].count + n == max
    ensures var t' := t[key := Bucket(max, now)];
            Granted(t, max, Burst(key, now, n) + rest, key, lo, hi) == n + Granted(t', max, rest, key, lo, hi)
    decreases n
  {
    if n == 0 {
      assert Burst(key, now, 0) + rest == rest;
      assert t == t[key := Bucket(max, now)];
    } else {
      var calls := Burst(key, now, n) + rest;
      assert calls[1..] == Burst(key, now, n - 1) + rest;
      var t' := After(t, max, calls[0]);
      BurstGranted(t', max, key, now, n - 1, rest, lo, hi);
      assert t'[key := Bucket(max, now)] == t[key := Bucket(max, now)];
    }
  }

  lemma {:induction false} FullBurstGranted(t: Table, max: nat, key: string, now: int, rest: seq<Call>, lo: int,
      hi: int)
    requires max > 0 && lo <= now <= hi
    requires key in t ==> now - t[key].start >= WINDOW
    ensures Granted(t, max, Burst(key, now, max) + rest, key, lo, hi)
         == max + Granted(t[key := Bucket(max, now)], max, rest, key, lo, hi)
  {
    var calls := Burst(key, now, max) + rest;
    assert calls[0] == Check(key, now) && calls[1..] == Burst(key, now, max - 1) + rest;
    var t' := t[key := Bucket(1, now)];
    assert After(t, max, calls[0]) == t';
    BurstGranted(t', max, key, now, max - 1, rest, lo, hi);
    assert t'[key := Bucket(max, now)] == t[key := Bucket(max, now)];
  }

  lemma {:induction false} BurstsGranted(t: Table, max: nat, key: string, now: int, k: nat, lo: int, hi: int)
    requires max > 0 && lo <= now && now + k * WINDOW <= hi
    requires key in t ==> now - t[key].start >= WINDOW
    ensures Granted(t, max, Bursts(key, now, k, max), key, lo, hi) == (k + 1) * max
    decreases k
  {
    var t' := t[key := Bucket(max, now)];
    if k == 0 {
      FullBurstGranted(t, max, key, now, [], lo, hi);
    } else {
      FullBurstGranted(t, max, key, now, Bursts(key, now + WINDOW, k - 1, max), lo, hi);
      BurstsGranted(t', max, key, now + WINDOW, k - 1, lo, hi);
      assert (k + 1) * max == max + k * max;
    }
  }

  lemma {:induction false} BurstsClock(key: string, now: int, k: nat, max: nat)
    ensures Monotone(Bursts(key, now, k, max), now)
    decreases k
  {
    if k > 0 {
      BurstsClock(key, now + WINDOW, k - 1, max);
    }
  }

  lemma BoundIsTight(max: nat, key: string, lo: int, windows: nat)
    requires max > 0
    ensures exists calls :: ClockOk(calls)
              && Granted(map[], max, calls, key, lo, lo + windows * WINDOW) == (windows + 1) * max
  {
    BurstsClock(key, lo, windows, max);
    BurstsGranted(map[], max, key, lo, windows, lo, lo + windows * WINDOW);
    assert ClockOk(Bursts(key, lo, windows, max));
  }
}
