/**
 * src/server/auth/rate-limit.ts: the in-memory bucket limiter, and the ledger of login
 * attempts behind the durable one. Times are in milliseconds and never run backwards.
 */
module RateLimit {
  import opened Common

  type Key = nat

  datatype Bucket = Bucket(count: int, expiresAt: int)

  type Cache = map<Key, Bucket>

  datatype Decision = Decision(allowed: bool, remaining: int, retryAfterSeconds: int)

  function Swept(cache: Cache, now: int): Cache {
    map k | k in cache && cache[k].expiresAt > now :: cache[k]
  }

  /** Milliseconds in whole seconds, rounded up. */
  function CeilSeconds(ms: int): (s: int)
    ensures 1000 * (s - 1) < ms <= 1000 * s
  {
    (ms + 999) / 1000
  }

  /** The decision and the cache after it, on a cache that holds no expired bucket for the key. */
  function Checked(cache: Cache, key: Key, limit: int, windowMs: int, now: int): (Cache, Decision) {
    if key !in cache then
      (cache[key := Bucket(1, now + windowMs)], Decision(true, limit - 1, 0))
    else
      var bucket := cache[key];
      if bucket.count >= limit then
        (cache, Decision(false, 0, Max(1, CeilSeconds(bucket.expiresAt - now))))
      else
        (cache[key := bucket.(count := bucket.count + 1)], Decision(true, Max(0, limit - (bucket.count + 1)), 0))
  }

  class HotCache {
    var buckets: Cache

    constructor ()
      ensures buckets == map[]
    {
      buckets := map[];
    }

    /** Deletes expired entries while walking over the map. */
    method Sweep(now: int)
      modifies this
      ensures buckets == Swept(old(buckets), now)
    {
      var left := buckets.Keys;
      while left != {}
        invariant left <= old(buckets).Keys
        invariant buckets
                  == map k | k in old(buckets) && (k in left || old(buckets)[k].expiresAt > now) :: old(buckets)[k]
        decreases left
      {
        var key: Key :| key in left;
        left := left - {key};
        if buckets[key].expiresAt <= now {
          buckets := buckets - {key};
        }
      }
    }

    method CheckHotBucket(key: Key, limit: int, windowSeconds: nat, now: int) returns (decision: Decision)
      modifies this
      ensures (buckets, decision) == Checked(Swept(old(buckets), now), key, limit, windowSeconds * 1000, now)
      // In terms of the bucket that the key had, if it had not run out.
      ensures var live := key in old(buckets) && old(buckets)[key].expiresAt > now;
              && (decision.allowed <==> !live || old(buckets)[key].count < limit)
              && (decision.allowed ==>
                    && key in buckets && buckets[key].count == (if live then old(buckets)[key].count + 1 else 1)
                    && buckets[key].expiresAt
                       == (if live then old(buckets)[key].expiresAt else now + windowSeconds * 1000)
                    && decision.remaining == limit - buckets[key].count && decision.retryAfterSeconds == 0)
              && (!decision.allowed ==>
                    && decision.remaining == 0 && key in buckets && buckets[key] == old(buckets)[key]
                    && 1000 * (decision.retryAfterSeconds - 1) < old(buckets)[key].expiresAt - now
                       <= 1000 * decision.retryAfterSeconds)
      ensures forall k :: k != key && k in old(buckets) && old(buckets)[k].expiresAt > now ==>
                k in buckets && buckets[k] == old(buckets)[k]
    {
      Sweep(now);
      if key !in buckets {
        buckets := buckets[key := Bucket(1, now + windowSeconds * 1000)];
        return Decision(true, limit - 1, 0);
      }
      var bucket := buckets[key];
      if bucket.count >= limit {
        return Decision(false, 0, Max(1, CeilSeconds(bucket.expiresAt - now)));
      }
      bucket := bucket.(count := bucket.count + 1);
      buckets := buckets[key := bucket];
      return Decision(true, Max(0, limit - bucket.count), 0);
    }
  }

  // ------------------------------------------------------------ the hot bucket

  datatype Call = Call(key: Key, limit: int, windowMs: nat, now: int)

  function CheckedCall(cache: Cache, c: Call): (Cache, Decision) {
    Checked(Swept(cache, c.now), c.key, c.limit, c.windowMs, c.now)
  }

  predicate Ordered(calls: seq<Call>) {
    forall i, j :: 0 <= i < j < |calls| ==> calls[i].now <= calls[j].now
  }

  /** Every call on the key has this limit and window. */
  predicate Fixed(calls: seq<Call>, key: Key, limit: int, windowMs: nat) {
    forall i :: 0 <= i < |calls| && calls[i].key == key ==> calls[i].limit == limit && calls[i].windowMs == windowMs
  }

  /** How many calls on the key a run allows at times from `a` up to but not including `a + windowMs`. */
  function AllowedWithin(cache: Cache, calls: seq<Call>, key: Key, a: int, windowMs: nat): nat
    decreases |calls|
  {
    if calls == [] then 0
    else
      var c := calls[0];
      var (after, decision) := CheckedCall(cache, c);
      (if c.key == key && decision.allowed && a <= c.now < a + windowMs then 1 else 0)
      + AllowedWithin(after, calls[1..], key, a, windowMs)
  }

  lemma {:induction false} NoneAfterwards(cache: Cache, calls: seq<Call>, key: Key, a: int, windowMs: nat)
    requires forall i :: 0 <= i < |calls| ==> calls[i].now >= a + windowMs
    ensures AllowedWithin(cache, calls, key, a, windowMs) == 0
    decreases |calls|
  {
    if calls != [] {
      NoneAfterwards(CheckedCall(cache, calls[0]).0, calls[1..], key, a, windowMs);
    }
  }

  /** What the key may still be allowed in the interval, from time `now` on. */
  function Allowance(cache: Cache, key: Key, limit: int, a: int, windowMs: nat, now: int): int {
    if key !in cache || cache[key].expiresAt <= now then
      if now >= a then limit else 2 * limit - 1
    else
      var bucket := cache[key];
      if bucket.expiresAt >= a + windowMs then limit - bucket.count
      else if bucket.expiresAt > a then 2 * limit - bucket.count
      else 2 * limit - 1
  }

  predicate Counted(cache: Cache, key: Key, limit: int) {
    key in cache ==> 1 <= cache[key].count <= limit
  }

  lemma AllowanceStep(cache: Cache, c: Call, key: Key, limit: int, a: int, windowMs: nat)
    requires limit >= 1 && Counted(cache, key, limit) && c.now < a + windowMs
    requires c.key == key ==> c.limit == limit && c.windowMs == windowMs
    ensures var (after, decision) := CheckedCall(cache, c);
            && Counted(after, key, limit)
            && (if c.key == key && decision.allowed && a <= c.now then 1 else 0)
               + Allowance(after, key, limit, a, windowMs, c.now)
                 <= Allowance(cache, key, limit, a, windowMs, c.now)
  {
  }

  lemma AllowanceFalls(cache: Cache, key: Key, limit: int, a: int, windowMs: nat, now: int, later: int)
    requires limit >= 1 && Counted(cache, key, limit) && now <= later < a + windowMs
    ensures 0 <= Allowance(cache, key, limit, a, windowMs, later) <= Allowance(cache, key, limit, a, windowMs, now)
  {
  }

  lemma {:induction false} AllowedWithinAllowance(cache: Cache, calls: seq<Call>, key: Key, limit: int, a: int,
                                                  windowMs: nat, now: int)
    requires limit >= 1 && Counted(cache, key, limit)
    requires Ordered(calls) && Fixed(calls, key, limit, windowMs)
    requires now < a + windowMs && forall i :: 0 <= i < |calls| ==> now <= calls[i].now
    ensures AllowedWithin(cache, calls, key, a, windowMs) <= Allowance(cache, key, limit, a, windowMs, now)
    decreases |calls|
  {
    hide CheckedCall, Allowance;
    AllowanceFalls(cache, key, limit, a, windowMs, now, now);
    if calls != [] {
      var c := calls[0];
      if c.now >= a + windowMs {
        NoneAfterwards(cache, calls, key, a, windowMs);
      } else {
        AllowanceFalls(cache, key, limit, a, windowMs, now, c.now);
        AllowanceStep(cache, c, key, limit, a, windowMs);
        AllowedWithinAllowance(CheckedCall(cache, c).0, calls[1..], key, limit, a, windowMs, c.now);
      }
    }
  }

  /**
   * The limiter's bound, over every run and whatever other keys are called: in any half-open
   * interval of the window's length a key with a fixed limit is allowed fewer than twice its
   * limit.
   */
  lemma FewerThanTwiceTheLimit(calls: seq<Call>, key: Key, limit: int, windowMs: nat, a: int)
    requires limit >= 1 && Ordered(calls) && Fixed(calls, key, limit, windowMs)
    ensures AllowedWithin(map[], calls, key, a, windowMs) <= 2 * limit - 1
  {
    if windowMs == 0 {
      NoneInEmptyInterval(map[], calls, key, a);
    } else {
      var now := if calls == [] then a - 1 else Min(a - 1, calls[0].now);
      AllowedWithinAllowance(map[], calls, key, limit, a, windowMs, now);
    }
  }

  lemma {:induction false} NoneInEmptyInterval(cache: Cache, calls: seq<Call>, key: Key, a: int)
    ensures AllowedWithin(cache, calls, key, a, 0) == 0
    decreases |calls|
  {
    if calls != [] {
      NoneInEmptyInterval(CheckedCall(cache, calls[0]).0, calls[1..], key, a);
    }
  }

  function Repeated(c: Call, n: nat): seq<Call> {
    if n == 0 then [] else [c] + Repeated(c, n - 1)
  }

  lemma {:induction false} AllRepeated(c: Call, n: nat)
    ensures |Repeated(c, n)| == n && forall i :: 0 <= i < n ==> Repeated(c, n)[i] == c
  {
    if n > 0 {
      AllRepeated(c, n - 1);
    }
  }

  lemma OneFits(count: nat, expiresAt: int, c: Call)
    requires c.now < expiresAt && count < c.limit
    ensures CheckedCall(map[c.key := Bucket(count, expiresAt)], c).0 == map[c.key := Bucket(count + 1, expiresAt)]
    ensures CheckedCall(map[c.key := Bucket(count, expiresAt)], c).1.allowed
  {
    var cache := map[c.key := Bucket(count, expiresAt)];
    assert Swept(cache, c.now) == cache;
  }

  lemma FirstFits(cache: Cache, c: Call)
    requires Swept(cache, c.now) == map[]
    ensures CheckedCall(cache, c).0 == map[c.key := Bucket(1, c.now + c.windowMs)] && CheckedCall(cache, c).1.allowed
  {
  }

  lemma OneMoreAllowed(cache: Cache, c: Call, rest: seq<Call>, a: int)
    requires CheckedCall(cache, c).1.allowed && a <= c.now < a + c.windowMs
    ensures AllowedWithin(cache, [c] + rest, c.key, a, c.windowMs)
            == 1 + AllowedWithin(CheckedCall(cache, c).0, rest, c.key, a, c.windowMs)
  {
    hide CheckedCall;
    assert ([c] + rest)[1..] == rest;
  }

  /** Calls at one time within a live bucket pass while there is room in it. */
  lemma {:induction false} RoomIsUsed(count: nat, expiresAt: int, c: Call, n: nat, rest: seq<Call>, a: int)
    requires c.now < expiresAt && count + n <= c.limit && a <= c.now < a + c.windowMs
    ensures var filled := map[c.key := Bucket(count + n, expiresAt)];
            AllowedWithin(map[c.key := Bucket(count, expiresAt)], Repeated(c, n) + rest, c.key, a, c.windowMs)
            == n + AllowedWithin(filled, rest, c.key, a, c.windowMs)
    decreases n
  {
    if n == 0 {
      assert [] + rest == rest;
    } else {
      hide CheckedCall, AllowedWithin;
      assert Repeated(c, n) + rest == [c] + (Repeated(c, n - 1) + rest);
      OneFits(count, expiresAt, c);
      OneMoreAllowed(map[c.key := Bucket(count, expiresAt)], c, Repeated(c, n - 1) + rest, a);
      RoomIsUsed(count + 1, expiresAt, c, n - 1, rest, a);
    }
  }

  /** One call, then limit - 1 calls just before its bucket expires and limit calls when it has. */
  function Burst(key: Key, limit: nat, windowMs: nat): seq<Call>
    requires limit >= 1
  {
    var late, next := Call(key, limit, windowMs, windowMs - 1), Call(key, limit, windowMs, windowMs);
    [Call(key, limit, windowMs, 0)] + (Repeated(late, limit - 1) + ([next] + (Repeated(next, limit - 1) + [])))
  }

  /** The bound is reached for every limit and window: twice the limit less one pass within one window. */
  lemma BoundIsReached(key: Key, limit: nat, windowMs: nat)
    requires limit >= 1 && windowMs >= 2
    ensures AllowedWithin(map[], Burst(key, limit, windowMs), key, windowMs - 1, windowMs) == 2 * limit - 1
    ensures Ordered(Burst(key, limit, windowMs)) && Fixed(Burst(key, limit, windowMs), key, limit, windowMs)
  {
    BurstAllowed(key, limit, windowMs);
    var late, next := Call(key, limit, windowMs, windowMs - 1), Call(key, limit, windowMs, windowMs);
    hide Repeated, AllowedWithin;
    AllRepeated(late, limit - 1);
    AllRepeated(next, limit - 1);
  }

  lemma BurstAllowed(key: Key, limit: nat, windowMs: nat)
    requires limit >= 1 && windowMs >= 2
    ensures AllowedWithin(map[], Burst(key, limit, windowMs), key, windowMs - 1, windowMs) == 2 * limit - 1
  {
    hide CheckedCall;
    var first := Call(key, limit, windowMs, 0);
    var late, next := Call(key, limit, windowMs, windowMs - 1), Call(key, limit, windowMs, windowMs);
    var end := Repeated(next, limit - 1) + [];
    assert Swept(map[], 0) == map[];
    FirstFits(map[], first);
    assert Burst(key, limit, windowMs)[1..] == Repeated(late, limit - 1) + ([next] + end);
    RoomIsUsed(1, windowMs, late, limit - 1, [next] + end, windowMs - 1);
    var full := map[key := Bucket(limit, windowMs)];
    assert Swept(full, windowMs) == map[];
    FirstFits(full, next);
    assert ([next] + end)[1..] == end;
    RoomIsUsed(1, 2 * windowMs, next, limit - 1, [], windowMs - 1);
  }

  /** A key without a live bucket is let through under any limit, even zero. */
  lemma FirstCallAlwaysPasses(cache: Cache, c: Call)
    ensures c.key !in cache || cache[c.key].expiresAt <= c.now ==> CheckedCall(cache, c).1.allowed
    ensures c.limit <= 0 ==>
              (CheckedCall(cache, c).1.allowed <==>
                 c.key !in cache || cache[c.key].expiresAt <= c.now || cache[c.key].count < c.limit)
  {
  }

  // ------------------------------------------------------------------ sweeping

  /** The limiter without a sweep: an expired bucket is replaced when its own key is called. */
  function CheckedLazily(cache: Cache, c: Call): (Cache, Decision) {
    if c.key in cache && cache[c.key].expiresAt <= c.now
    then Checked(cache - {c.key}, c.key, c.limit, c.windowMs, c.now)
    else Checked(cache, c.key, c.limit, c.windowMs, c.now)
  }

  function Decisions(cache: Cache, calls: seq<Call>, sweeping: bool): seq<Decision>
    decreases |calls|
  {
    if calls == [] then []
    else
      var (after, decision) := if sweeping then CheckedCall(cache, calls[0]) else CheckedLazily(cache, calls[0]);
      [decision] + Decisions(after, calls[1..], sweeping)
  }

  /** Two caches hold the same live buckets. */
  ghost predicate SameLive(a: Cache, b: Cache, now: int) {
    forall k :: (k in a && a[k].expiresAt > now <==> k in b && b[k].expiresAt > now)
             && (k in a && a[k].expiresAt > now ==> a[k] == b[k])
  }

  lemma SweepStep(a: Cache, b: Cache, c: Call, now: int)
    requires SameLive(a, b, now) && now <= c.now
    ensures CheckedCall(a, c).1 == CheckedLazily(b, c).1
    ensures SameLive(CheckedCall(a, c).0, CheckedLazily(b, c).0, c.now)
  {
    assert SameLive(a, b, c.now);
  }

  lemma {:induction false} SweepRun(a: Cache, b: Cache, calls: seq<Call>, now: int)
    requires SameLive(a, b, now) && Ordered(calls) && forall i :: 0 <= i < |calls| ==> now <= calls[i].now
    ensures Decisions(a, calls, true) == Decisions(b, calls, false)
    decreases |calls|
  {
    hide SameLive, CheckedCall, CheckedLazily;
    if calls != [] {
      SweepStep(a, b, calls[0], now);
      SweepRun(CheckedCall(a, calls[0]).0, CheckedLazily(b, calls[0]).0, calls[1..], calls[0].now);
    }
  }

  /** Sweeping on every call never changes a decision: over any run, a cache never swept answers alike. */
  lemma SweepingIsInvisible(calls: seq<Call>)
    requires Ordered(calls)
    ensures Decisions(map[], calls, true) == Decisions(map[], calls, false)
  {
    if calls != [] {
      SweepRun(map[], map[], calls, calls[0].now);
    }
  }

  // ---------------------------------------------------------- login attempts

  /** A row of the attempt ledger for one kind and identifier; `passed` when the limiter let it try. */
  datatype Attempt = Attempt(at: int, success: bool, passed: bool)

  /** Failed attempts at or after `since`. */
  function Failures(ledger: seq<Attempt>, since: int): nat {
    if ledger == [] then 0
    else
      var last := ledger[|ledger| - 1];
      Failures(ledger[..|ledger| - 1], since) + if !last.success && last.at >= since then 1 else 0
  }

  function CheckAuthRateLimit(ledger: seq<Attempt>, limit: int, windowMs: nat, now: int): bool {
    Failures(ledger, now - windowMs) < limit
  }

  /** The i-th attempt failed at `at`, and none before it failed since then. */
  predicate FirstFailure(ledger: seq<Attempt>, i: nat, since: int, at: int)
    requires i < |ledger|
  {
    && !ledger[i].success && ledger[i].at == at >= since
    && forall j :: 0 <= j < i ==> ledger[j].success || ledger[j].at < since
  }

  /** The oldest failure at or after `since`; the ledger is in the order of its times. */
  function OldestFailure(ledger: seq<Attempt>, since: int): (oldest: Option<int>)
    ensures oldest.None? <==> forall i :: 0 <= i < |ledger| ==> ledger[i].success || ledger[i].at < since
    ensures oldest.None? <==> Failures(ledger, since) == 0
    ensures oldest.Some? ==>
              exists i :: 0 <= i < |ledger| && FirstFailure(ledger, i, since, oldest.value)
  {
    if ledger == [] then None
    else
      var before, last := OldestFailure(ledger[..|ledger| - 1], since), ledger[|ledger| - 1];
      if before.Some? then
        assert exists i :: 0 <= i < |ledger| && FirstFailure(ledger, i, since, before.value) by {
          var earlier := ledger[..|ledger| - 1];
          var i :| 0 <= i < |earlier| && FirstFailure(earlier, i, since, before.value);
          assert FirstFailure(ledger, i, since, before.value);
        }
        before
      else if !last.success && last.at >= since then
        assert FirstFailure(ledger, |ledger| - 1, since, last.at);
        Some(last.at)
      else None
  }

  class AttemptLedger {
    var rows: seq<Attempt>

    constructor ()
      ensures rows == []
    {
      rows := [];
    }

    method Check(limit: int, windowMs: nat, lockoutSeconds: int, now: int) returns (decision: Decision)
      ensures decision.allowed == CheckAuthRateLimit(rows, limit, windowMs, now)
      ensures decision.allowed ==>
                decision.remaining == limit - Failures(rows, now - windowMs) > 0 && decision.retryAfterSeconds == 0
      ensures !decision.allowed ==> decision.remaining == 0
      ensures !decision.allowed && Failures(rows, now - windowMs) > 0 ==>
                var oldest := OldestFailure(rows, now - windowMs).value;
                && decision.retryAfterSeconds >= 1 && now + decision.retryAfterSeconds * 1000 >= oldest + windowMs
                && (decision.retryAfterSeconds > 1 ==>
                      now + (decision.retryAfterSeconds - 1) * 1000 < oldest + windowMs)
    {
      var since := now - windowMs;
      var failures := Failures(rows, since);
      if failures >= limit {
        var oldest := OldestFailure(rows, since);
        var retryAfterSeconds := if oldest.Some? then Max(1, CeilSeconds(oldest.value + windowMs - now))
                                 else lockoutSeconds;
        return Decision(false, 0, retryAfterSeconds);
      }
      return Decision(true, Max(0, limit - failures), 0);
    }

    method RecordAuthAttempt(attempt: Attempt)
      modifies this
      ensures rows == old(rows) + [attempt]
    {
      rows := rows + [attempt];
    }

    /** A login: the limiter first, then the credentials, and a ledger row either way. */
    method LoginWithPassword(login: Login, limit: int, windowMs: nat, lockoutSeconds: int) returns (ok: Result<()>)
      modifies this
      ensures rows == LoggedIn(old(rows), login, limit, windowMs)
      ensures ok.Success? <==> CheckAuthRateLimit(old(rows), limit, windowMs, login.now) && login.credentialsValid
    {
      var decision := Check(limit, windowMs, lockoutSeconds, login.now);
      if !decision.allowed {
        RecordAuthAttempt(Attempt(login.now, false, false));
        return Failure(Conflict);
      }
      if !login.credentialsValid {
        RecordAuthAttempt(Attempt(login.now, false, true));
        return Failure(Forbidden);
      }
      RecordAuthAttempt(Attempt(login.now, true, true));
      return Success(());
    }
  }

  datatype Login = Login(now: int, credentialsValid: bool)

  /** A refused login is recorded as a failure too. */
  function LoggedIn(ledger: seq<Attempt>, login: Login, limit: int, windowMs: nat): seq<Attempt> {
    if CheckAuthRateLimit(ledger, limit, windowMs, login.now)
    then ledger + [Attempt(login.now, login.credentialsValid, true)]
    else ledger + [Attempt(login.now, false, false)]
  }

  function Logins(logins: seq<Login>, limit: int, windowMs: nat): (ledger: seq<Attempt>)
    ensures |ledger| == |logins|
  {
    if logins == [] then []
    else LoggedIn(Logins(logins[..|logins| - 1], limit, windowMs), logins[|logins| - 1], limit, windowMs)
  }

  /** Failures between `a` and `b`, both included, that got past the limiter. */
  function PassedFailures(ledger: seq<Attempt>, a: int, b: int): nat {
    if ledger == [] then 0
    else
      var last := ledger[|ledger| - 1];
      PassedFailures(ledger[..|ledger| - 1], a, b) + if !last.success && last.passed && a <= last.at <= b then 1 else 0
  }

  lemma {:induction false} PassedAmongFailures(ledger: seq<Attempt>, a: int, b: int, since: int)
    requires since <= a
    ensures PassedFailures(ledger, a, b) <= Failures(ledger, since)
  {
    if ledger != [] {
      PassedAmongFailures(ledger[..|ledger| - 1], a, b, since);
    }
  }

  /**
   * Over any run of sequential logins, any closed interval as long as the attempt window
   * holds at most `limit` failures that were let past the limiter.
   */
  lemma {:induction false} AtMostLimitFailures(logins: seq<Login>, limit: nat, windowMs: nat, a: int)
    requires forall i, j :: 0 <= i < j < |logins| ==> logins[i].now <= logins[j].now
    ensures PassedFailures(Logins(logins, limit, windowMs), a, a + windowMs) <= limit
  {
    if logins != [] {
      var before, login := logins[..|logins| - 1], logins[|logins| - 1];
      AtMostLimitFailures(before, limit, windowMs, a);
      var ledger := Logins(before, limit, windowMs);
      assert LoggedIn(ledger, login, limit, windowMs)[..|ledger|] == ledger;
      if a <= login.now <= a + windowMs {
        PassedAmongFailures(ledger, a, a + windowMs, login.now - windowMs);
      }
    }
  }

  /**
   * A refused login lengthens the lockout: it counts as a failure for a whole window of its
   * own, so waiting for the oldest failure to expire, as the caller is told to, is not enough
   * exactly when the newer failures still reach the limit.
   */
  lemma RefusalCountsAsFailure(ledger: seq<Attempt>, login: Login, limit: nat, windowMs: nat, later: int)
    requires !CheckAuthRateLimit(ledger, limit, windowMs, login.now)
    requires login.now <= later <= login.now + windowMs
    ensures CheckAuthRateLimit(LoggedIn(ledger, login, limit, windowMs), limit, windowMs, later) <==>
              Failures(ledger, later - windowMs) + 1 < limit
  {
    assert LoggedIn(ledger, login, limit, windowMs)[..|ledger|] == ledger;
  }

  // ---------------------------------------------------------- retrying for ever

  predicate AllFailed(ledger: seq<Attempt>) {
    forall i :: 0 <= i < |ledger| ==> !ledger[i].success
  }

  predicate InOrder(ledger: seq<Attempt>) {
    forall i, j :: 0 <= i < j < |ledger| ==> ledger[i].at <= ledger[j].at
  }

  lemma {:induction false} NoneSince(ledger: seq<Attempt>, since: int)
    requires forall i :: 0 <= i < |ledger| ==> ledger[i].at < since
    ensures Failures(ledger, since) == 0
  {
    if ledger != [] {
      NoneSince(ledger[..|ledger| - 1], since);
    }
  }

  /** In a ledger of failures the limit is reached exactly when the limit-th row from the end is recent. */
  lemma {:induction false} FailuresReach(ledger: seq<Attempt>, since: int, limit: nat)
    requires AllFailed(ledger) && InOrder(ledger) && limit >= 1
    ensures Failures(ledger, since) >= limit <==> |ledger| >= limit && ledger[|ledger| - limit].at >= since
  {
    if ledger != [] {
      var before, last := ledger[..|ledger| - 1], ledger[|ledger| - 1];
      if last.at < since {
        NoneSince(ledger, since);
      } else if limit > 1 {
        FailuresReach(before, since, limit - 1);
      }
    }
  }

  /** The k-th login gets past the limiter. */
  predicate LetIn(logins: seq<Login>, limit: nat, windowMs: nat, k: nat)
    requires k < |logins|
  {
    CheckAuthRateLimit(Logins(logins[..k], limit, windowMs), limit, windowMs, logins[k].now)
  }

  predicate LoginsInOrder(logins: seq<Login>) {
    forall i, j :: 0 <= i < j < |logins| ==> logins[i].now <= logins[j].now
  }

  /** The first `limit` logins have wrong credentials; the later ones may have any. */
  predicate StartsWrong(logins: seq<Login>, limit: nat) {
    forall i :: 0 <= i < |logins| && i < limit ==> !logins[i].credentialsValid
  }

  lemma {:induction false} LedgerOfRefused(logins: seq<Login>, limit: nat, windowMs: nat, n: nat)
    requires LoginsInOrder(logins) && StartsWrong(logins, limit) && n <= |logins|
    requires forall k :: limit <= k < n ==> !LetIn(logins, limit, windowMs, k)
    ensures var ledger := Logins(logins[..n], limit, windowMs);
            AllFailed(ledger) && InOrder(ledger) && forall i :: 0 <= i < n ==> ledger[i].at == logins[i].now
  {
    hide Failures;
    if n > 0 {
      LedgerOfRefused(logins, limit, windowMs, n - 1);
      assert logins[..n][..n - 1] == logins[..n - 1];
      assert n - 1 >= limit ==> !LetIn(logins, limit, windowMs, n - 1);
    }
  }

  lemma RefusedExactly(logins: seq<Login>, limit: nat, windowMs: nat, k: nat)
    requires LoginsInOrder(logins) && StartsWrong(logins, limit) && limit <= k < |logins|
    requires forall j :: limit <= j < k ==> !LetIn(logins, limit, windowMs, j)
    ensures !LetIn(logins, limit, windowMs, k) <==> logins[k].now - logins[k - limit].now <= windowMs
  {
    hide Failures, Logins;
    LedgerOfRefused(logins, limit, windowMs, k);
    if limit >= 1 {
      FailuresReach(Logins(logins[..k], limit, windowMs), logins[k].now - windowMs, limit);
    }
  }

  lemma {:induction false} DenseIsRefused(logins: seq<Login>, limit: nat, windowMs: nat, n: nat)
    requires LoginsInOrder(logins) && StartsWrong(logins, limit) && n <= |logins|
    requires forall k :: limit <= k < n ==> logins[k].now - logins[k - limit].now <= windowMs
    ensures forall k :: limit <= k < n ==> !LetIn(logins, limit, windowMs, k)
  {
    hide LetIn;
    if n > limit {
      DenseIsRefused(logins, limit, windowMs, n - 1);
      RefusedExactly(logins, limit, windowMs, n - 1);
    }
  }

  /**
   * Because a refusal counts as a failure, a client that went wrong `limit` times and keeps
   * retrying, with the right credentials or not, is never let in again exactly when it retries
   * densely enough: when no limit + 1 logins in a row take longer than the window. However
   * long the run, one pause is what lets it in.
   */
  lemma NeverLetInAgainExactly(logins: seq<Login>, limit: nat, windowMs: nat)
    requires LoginsInOrder(logins) && StartsWrong(logins, limit)
    ensures (forall k :: limit <= k < |logins| ==> !LetIn(logins, limit, windowMs, k)) <==>
              forall k :: limit <= k < |logins| ==> logins[k].now - logins[k - limit].now <= windowMs
  {
    hide LetIn;
    if forall k :: limit <= k < |logins| ==> !LetIn(logins, limit, windowMs, k) {
      forall k | limit <= k < |logins| ensures logins[k].now - logins[k - limit].now <= windowMs {
        RefusedExactly(logins, limit, windowMs, k);
      }
    }
    if forall k :: limit <= k < |logins| ==> logins[k].now - logins[k - limit].now <= windowMs {
      DenseIsRefused(logins, limit, windowMs, |logins|);
    }
  }
}
