/**
 The Redis token bucket (src/rate_limit/token_bucket.lua and token_bucket.rs).

 A bucket is refilled lazily: nothing happens between two calls, and a call works out in closed form how
 many whole intervals have gone by. A key lives in Redis until its TTL has passed; from then on it may
 disappear at any moment. Times are integer milliseconds of one clock.
 */
module TokenBucket {
  import opened Arithmetic

  /** The script's `maxTokens`, `interval` and `refillRate` arguments. */
  datatype Limit = Limit(maxTokens: nat, interval: nat, refillRate: nat) {
    predicate Valid() {
      interval > 0 && refillRate > 0
    }
  }

  datatype Bucket = Bucket(refilledAt: int, tokens: nat)

  /** What Redis holds under one key. */
  datatype Cell = Absent | Live(bucket: Bucket, expiresAt: int)

  /** What the script reports for one key; `remaining` is -1 when the call is rejected. */
  datatype Verdict = Verdict(remaining: int, reset: int) {
    predicate Admitted() {
      0 <= remaining
    }
  }

  // ----- The script for one key -----

  function Load(limit: Limit, cell: Cell, now: int): Bucket {
    match cell
    case Absent => Bucket(now, limit.maxTokens)
    case Live(bucket, _) => bucket
  }

  function Refill(limit: Limit, b: Bucket, now: int): Bucket
    requires limit.Valid()
  {
    if now >= b.refilledAt + limit.interval then
      var numRefills := (now - b.refilledAt) / limit.interval;
      DivBounds(now - b.refilledAt, limit.interval);
      MulStep(0, numRefills, limit.refillRate);
      Bucket(b.refilledAt + numRefills * limit.interval,
             Min(limit.maxTokens, b.tokens + numRefills * limit.refillRate))
    else
      b
  }

  /** How long the key is kept after a call that left `remaining` tokens. */
  function Ttl(limit: Limit, remaining: nat): int
    requires limit.Valid() && remaining <= limit.maxTokens
  {
    CeilDiv(limit.maxTokens - remaining, limit.refillRate) * limit.interval
  }

  function Attempt(limit: Limit, cell: Cell, now: int): (Cell, Verdict)
    requires limit.Valid() && Bounded(limit, cell)
  {
    var b := Refill(limit, Load(limit, cell, now), now);
    if b.tokens == 0 then
      (cell, Verdict(-1, b.refilledAt + limit.interval))
    else
      var remaining := b.tokens - 1;
      (Live(Bucket(b.refilledAt, remaining), now + Ttl(limit, remaining)),
       Verdict(remaining, b.refilledAt + limit.interval))
  }

  /** A stored bucket never holds more than the maximum. */
  predicate Bounded(limit: Limit, cell: Cell) {
    cell.Live? ==> cell.bucket.tokens <= limit.maxTokens
  }

  // ----- What the refill computes -----

  /** The bucket that adds `refillRate` tokens at every interval mark, one mark at a time. */
  function Tick(limit: Limit, b: Bucket): Bucket {
    Bucket(b.refilledAt + limit.interval, Min(limit.maxTokens, b.tokens + limit.refillRate))
  }

  function Ticks(limit: Limit, b: Bucket, n: nat): Bucket {
    if n == 0 then b else Tick(limit, Ticks(limit, b, n - 1))
  }

  lemma {:induction false} TicksClosedForm(limit: Limit, b: Bucket, n: nat)
    requires b.tokens <= limit.maxTokens
    ensures Ticks(limit, b, n).refilledAt == b.refilledAt + n * limit.interval
    ensures Ticks(limit, b, n).tokens == Min(limit.maxTokens, b.tokens + n * limit.refillRate)
  {
    if n > 0 {
      TicksClosedForm(limit, b, n - 1);
      assert n * limit.interval == (n - 1) * limit.interval + limit.interval;
      assert n * limit.refillRate == (n - 1) * limit.refillRate + limit.refillRate;
    }
  }

  /**
   The closed form is the eager bucket: after `Refill` the mark is the last interval mark at or before `now`,
   and the tokens are those of a bucket that was ticked at each mark.
   */
  lemma LazyEqualsEager(limit: Limit, b: Bucket, now: int) returns (n: nat)
    requires limit.Valid() && b.tokens <= limit.maxTokens && b.refilledAt <= now
    ensures Refill(limit, b, now) == Ticks(limit, b, n)
    ensures b.refilledAt + n * limit.interval <= now < b.refilledAt + n * limit.interval + limit.interval
    ensures n == (now - b.refilledAt) / limit.interval
  {
    DivBounds(now - b.refilledAt, limit.interval);
    n := (now - b.refilledAt) / limit.interval;
    if now < b.refilledAt + limit.interval {
      DivUnique(now - b.refilledAt, limit.interval, 0);
    }
    TicksClosedForm(limit, b, n);
  }

  lemma {:induction false} TicksCompose(limit: Limit, b: Bucket, m: nat, n: nat)
    ensures Ticks(limit, Ticks(limit, b, m), n) == Ticks(limit, b, m + n)
  {
    if n > 0 {
      TicksCompose(limit, b, m, n - 1);
    }
  }

  /** Looking at a bucket on the way does not change it: refilling at t1 and then at t2 is refilling at t2. */
  lemma RefillCompose(limit: Limit, b: Bucket, t1: int, t2: int)
    requires limit.Valid() && b.tokens <= limit.maxTokens && b.refilledAt <= t1 <= t2
    ensures Refill(limit, Refill(limit, b, t1), t2) == Refill(limit, b, t2)
  {
    var m := LazyEqualsEager(limit, b, t1);
    var mid := Refill(limit, b, t1);
    TicksClosedForm(limit, b, m);
    var n := LazyEqualsEager(limit, mid, t2);
    var whole := LazyEqualsEager(limit, b, t2);
    DivShift(t2 - mid.refilledAt, m, limit.interval);
    TicksCompose(limit, b, m, n);
  }

  // ----- Runs over one key -----

  /** Redis dropping the key is an event of its own: it may happen at any time from the deadline on. */
  datatype Event = Call(at: int) | Expire(at: int)

  predicate Enabled(cell: Cell, e: Event) {
    e.Expire? ==> cell.Live? && cell.expiresAt <= e.at
  }

  function Apply(limit: Limit, cell: Cell, e: Event): (next: Cell)
    requires limit.Valid() && Bounded(limit, cell)
    ensures Bounded(limit, next)
  {
    match e
    case Call(at) => Attempt(limit, cell, at).0
    case Expire(_) => Absent
  }

  predicate IsRun(limit: Limit, cell: Cell, from: int, events: seq<Event>, until: int)
    requires limit.Valid() && Bounded(limit, cell)
    decreases |events|
  {
    if events == [] then
      from <= until
    else
      && from <= events[0].at
      && Enabled(cell, events[0])
      && IsRun(limit, Apply(limit, cell, events[0]), events[0].at, events[1..], until)
  }

  function Final(limit: Limit, cell: Cell, events: seq<Event>): (last: Cell)
    requires limit.Valid() && Bounded(limit, cell)
    ensures Bounded(limit, last)
    decreases |events|
  {
    if events == [] then cell else Final(limit, Apply(limit, cell, events[0]), events[1..])
  }

  predicate Admits(limit: Limit, cell: Cell, e: Event)
    requires limit.Valid() && Bounded(limit, cell)
  {
    e.Call? && Attempt(limit, cell, e.at).1.Admitted()
  }

  function Admissions(limit: Limit, cell: Cell, events: seq<Event>): nat
    requires limit.Valid() && Bounded(limit, cell)
    decreases |events|
  {
    if events == [] then
      0
    else
      (if Admits(limit, cell, events[0]) then 1 else 0) +
      Admissions(limit, Apply(limit, cell, events[0]), events[1..])
  }

  /** The refill mark in force at `now`, and the tokens a call at `now` would find. */
  function Mark(limit: Limit, cell: Cell, now: int): int
    requires limit.Valid()
  {
    Refill(limit, Load(limit, cell, now), now).refilledAt
  }

  function Available(limit: Limit, cell: Cell, now: int): nat
    requires limit.Valid()
  {
    Refill(limit, Load(limit, cell, now), now).tokens
  }

  /** What every reachable cell satisfies: the deadline is never before the bucket is full again. */
  ghost predicate CellInv(limit: Limit, cell: Cell, now: int)
    requires limit.Valid()
  {
    cell.Live? ==>
      && cell.bucket.refilledAt <= now
      && cell.bucket.tokens < limit.maxTokens
      && cell.bucket.refilledAt + Ttl(limit, cell.bucket.tokens) <= cell.expiresAt
  }

  lemma RefillMark(limit: Limit, b: Bucket, now: int)
    requires limit.Valid() && b.tokens <= limit.maxTokens && b.refilledAt <= now
    ensures now - limit.interval < Refill(limit, b, now).refilledAt <= now
    ensures Refill(limit, b, now).tokens <= limit.maxTokens
    ensures b.tokens <= Refill(limit, b, now).tokens
  {
    var n := LazyEqualsEager(limit, b, now);
    TicksClosedForm(limit, b, n);
    MulStep(0, n, limit.refillRate);
  }

  lemma StepKeepsCellInv(limit: Limit, cell: Cell, from: int, e: Event)
    requires limit.Valid() && CellInv(limit, cell, from) && from <= e.at
    ensures CellInv(limit, Apply(limit, cell, e), e.at)
  {
    RefillMark(limit, Load(limit, cell, e.at), e.at);
  }

  /** A bucket that Redis may drop has all its tokens due: dropping it takes nothing away and gives nothing. */
  lemma FullWhenExpirable(limit: Limit, cell: Cell, now: int)
    requires limit.Valid() && CellInv(limit, cell, now)
    requires cell.Live? && cell.expiresAt <= now
    ensures Available(limit, cell, now) == limit.maxTokens == Available(limit, Absent, now)
    ensures Mark(limit, cell, now) <= Mark(limit, Absent, now)
  {
    var b := cell.bucket;
    var k := CeilDiv(limit.maxTokens - b.tokens, limit.refillRate);
    var n := LazyEqualsEager(limit, b, now);
    TicksClosedForm(limit, b, n);
    StepsCover(k, n, limit.interval, limit.refillRate, now - b.refilledAt);
  }

  /** The maximum plus what the marks in a stretch of `span` milliseconds put back. */
  function Allowance(limit: Limit, span: int): int
    requires limit.Valid()
  {
    limit.maxTokens + limit.refillRate * (span / limit.interval)
  }

  lemma AllowanceMonotone(limit: Limit, s1: int, s2: int)
    requires limit.Valid() && s1 <= s2
    ensures Allowance(limit, s1) <= Allowance(limit, s2)
  {
    DivMonotone(s1, s2, limit.interval);
    MulStep(s1 / limit.interval, s2 / limit.interval, limit.refillRate);
  }

  lemma AllowanceShift(limit: Limit, s: int, n: int)
    requires limit.Valid()
    ensures Allowance(limit, s + n * limit.interval) == Allowance(limit, s) + n * limit.refillRate
  {
    DivShift(s, n, limit.interval);
    assert limit.refillRate * (s / limit.interval + n)
        == limit.refillRate * (s / limit.interval) + n * limit.refillRate;
  }

  /** Until `now`, at most `used` admissions, counted against the refills due since `p0`. */
  ghost predicate Within(limit: Limit, cell: Cell, now: int, p0: int, used: nat)
    requires limit.Valid()
  {
    used + Available(limit, cell, now) <= Allowance(limit, Mark(limit, cell, now) - p0)
  }

  lemma WithinAsTimePasses(limit: Limit, cell: Cell, t1: int, t2: int, p0: int, used: nat)
    requires limit.Valid() && CellInv(limit, cell, t1) && t1 <= t2
    requires Within(limit, cell, t1, p0, used)
    ensures Within(limit, cell, t2, p0, used)
  {
    match cell
    case Absent =>
      AllowanceMonotone(limit, t1 - p0, t2 - p0);
    case Live(b, _) =>
      RefillMark(limit, b, t1);
      var mid := Refill(limit, b, t1);
      RefillCompose(limit, b, t1, t2);
      var n := LazyEqualsEager(limit, mid, t2);
      TicksClosedForm(limit, mid, n);
      AllowanceShift(limit, mid.refilledAt - p0, n);
      assert Mark(limit, cell, t2) - p0 == mid.refilledAt - p0 + n * limit.interval;
  }

  lemma WithinAcrossEvent(limit: Limit, cell: Cell, e: Event, p0: int, used: nat)
    requires limit.Valid() && CellInv(limit, cell, e.at) && Enabled(cell, e)
    requires Within(limit, cell, e.at, p0, used)
    ensures Within(limit, Apply(limit, cell, e), e.at, p0, used + if Admits(limit, cell, e) then 1 else 0)
  {
    match e
    case Call(at) =>
      RefillMark(limit, Load(limit, cell, at), at);
    case Expire(at) =>
      FullWhenExpirable(limit, cell, at);
      AllowanceMonotone(limit, Mark(limit, cell, at) - p0, at - p0);
  }

  lemma {:induction false} WithinOverRun(
      limit: Limit, cell: Cell, from: int, events: seq<Event>, until: int, p0: int, used: nat)
    requires limit.Valid() && CellInv(limit, cell, from) && IsRun(limit, cell, from, events, until)
    requires Within(limit, cell, from, p0, used)
    ensures Within(limit, Final(limit, cell, events), until, p0, used + Admissions(limit, cell, events))
    ensures CellInv(limit, Final(limit, cell, events), until)
    decreases |events|
  {
    if events == [] {
      WithinAsTimePasses(limit, cell, from, until, p0, used);
    } else {
      var e := events[0];
      WithinAsTimePasses(limit, cell, from, e.at, p0, used);
      WithinAcrossEvent(limit, cell, e, p0, used);
      StepKeepsCellInv(limit, cell, from, e);
      WithinOverRun(limit, Apply(limit, cell, e), e.at, events[1..], until, p0,
                    used + if Admits(limit, cell, e) then 1 else 0);
    }
  }

  lemma {:induction false} RunKeepsCellInv(limit: Limit, cell: Cell, from: int, events: seq<Event>, until: int)
    requires limit.Valid() && CellInv(limit, cell, from) && IsRun(limit, cell, from, events, until)
    ensures CellInv(limit, Final(limit, cell, events), until)
    decreases |events|
  {
    if events != [] {
      StepKeepsCellInv(limit, cell, from, events[0]);
      RunKeepsCellInv(limit, Apply(limit, cell, events[0]), events[0].at, events[1..], until);
    }
  }

  /**
   The rate limit over whole runs. A key starts absent, sees any calls and expiries up to `t1` and then any
   up to `t2`: the window [t1, t2] admits at most the maximum plus what the marks after `p0` put back,
   where `p0` is the refill mark in force at `t1`. Expiry does not buy an extra admission.
   */
  lemma RunBound(limit: Limit, start: int, before: seq<Event>, t1: int, window: seq<Event>, t2: int)
    requires limit.Valid() && IsRun(limit, Absent, start, before, t1)
    requires IsRun(limit, Final(limit, Absent, before), t1, window, t2)
    ensures
      var cell := Final(limit, Absent, before);
      var p0 := Mark(limit, cell, t1);
      && t1 - limit.interval < p0 <= t1
      && Admissions(limit, cell, window) <= limit.maxTokens + limit.refillRate * ((t2 - p0) / limit.interval)
      && Admissions(limit, cell, window)
         <= limit.maxTokens + limit.refillRate * ((t2 - t1) / limit.interval + 1)
  {
    RunKeepsCellInv(limit, Absent, start, before, t1);
    var cell := Final(limit, Absent, before);
    var p0 := Mark(limit, cell, t1);
    WindowWithin(limit, cell, t1, window, t2);
    WindowAllowance(limit, p0, t1, t2);
  }

  /** From the mark in force at the beginning, a window admits no more than its allowance. */
  lemma WindowWithin(limit: Limit, cell: Cell, t1: int, window: seq<Event>, t2: int)
    requires limit.Valid() && CellInv(limit, cell, t1) && IsRun(limit, cell, t1, window, t2)
    ensures t1 - limit.interval < Mark(limit, cell, t1) <= t1
    ensures Admissions(limit, cell, window) <= Allowance(limit, t2 - Mark(limit, cell, t1))
  {
    RefillMark(limit, Load(limit, cell, t1), t1);
    var p0 := Mark(limit, cell, t1);
    assert Within(limit, cell, t1, p0, 0);
    WithinOverRun(limit, cell, t1, window, t2, p0, 0);
    var last := Final(limit, cell, window);
    RefillMark(limit, Load(limit, last, t2), t2);
    AllowanceMonotone(limit, Mark(limit, last, t2) - p0, t2 - p0);
  }

  lemma WindowAllowance(limit: Limit, p0: int, t1: int, t2: int)
    requires limit.Valid() && t1 - limit.interval < p0
    ensures Allowance(limit, t2 - p0) == limit.maxTokens + limit.refillRate * ((t2 - p0) / limit.interval)
    ensures Allowance(limit, t2 - p0) <= limit.maxTokens + limit.refillRate * ((t2 - t1) / limit.interval + 1)
  {
    AllowanceMonotone(limit, t2 - p0, t2 - t1 + 1 * limit.interval);
    DivShift(t2 - t1, 1, limit.interval);
  }

  // ----- The reset time of a rejection -----

  lemma RejectionIsStable(limit: Limit, cell: Cell, now: int, at: int)
    requires limit.Valid() && CellInv(limit, cell, now) && limit.maxTokens > 0
    requires !Attempt(limit, cell, now).1.Admitted() && now <= at < Attempt(limit, cell, now).1.reset
    ensures Attempt(limit, cell, at) == Attempt(limit, cell, now)
    ensures !Enabled(cell, Expire(at))
  {
    var b := cell.bucket;
    var n := LazyEqualsEager(limit, b, now);
    TicksClosedForm(limit, b, n);
    MulStep(0, n, limit.refillRate);
    MulStep(1, n, limit.refillRate);
    var k := CeilDiv(limit.maxTokens, limit.refillRate);
    MulStep(1, k, limit.interval);
  }

  lemma {:induction false} ZeroLimitRejects(limit: Limit, from: int, events: seq<Event>, until: int)
    requires limit.Valid() && limit.maxTokens == 0 && IsRun(limit, Absent, from, events, until)
    ensures Final(limit, Absent, events) == Absent && Admissions(limit, Absent, events) == 0
    decreases |events|
  {
    if events != [] {
      assert Apply(limit, Absent, events[0]) == Absent;
      ZeroLimitRejects(limit, events[0].at, events[1..], until);
    }
  }

  /** Calls come before the reset; the key may expire at any time. */
  predicate CallsBefore(events: seq<Event>, reset: int) {
    forall i :: 0 <= i < |events| && events[i].Call? ==> events[i].at < reset
  }

  /** Once a key has expired, nothing but a call can happen to it. */
  lemma NothingAfter(limit: Limit, from: int, events: seq<Event>, until: int, reset: int)
    requires limit.Valid() && IsRun(limit, Absent, from, events, until) && reset <= from
    requires CallsBefore(events, reset)
    ensures events == [] && Final(limit, Absent, events) == Absent && Admissions(limit, Absent, events) == 0
  {
  }

  lemma {:induction false} RejectedUntilReset(limit: Limit, cell: Cell, now: int, between: seq<Event>, at: int)
    requires limit.Valid() && CellInv(limit, cell, now) && limit.maxTokens > 0
    requires !Attempt(limit, cell, now).1.Admitted() && IsRun(limit, cell, now, between, at)
    requires CallsBefore(between, Attempt(limit, cell, now).1.reset)
    ensures Admissions(limit, cell, between) == 0
    ensures Final(limit, cell, between) == cell || Final(limit, cell, between) == Absent
    ensures at < Attempt(limit, cell, now).1.reset ==> Final(limit, cell, between) == cell
    decreases |between|
  {
    if between != [] {
      var e, rest := between[0], between[1..];
      assert forall i :: 0 <= i < |rest| ==> rest[i] == between[i + 1];
      if e.at < Attempt(limit, cell, now).1.reset {
        RejectionIsStable(limit, cell, now, e.at);
        RejectedUntilReset(limit, cell, e.at, rest, at);
      } else {
        NothingAfter(limit, e.at, rest, at, Attempt(limit, cell, now).1.reset);
      }
    }
    RunEndsLate(limit, cell, now, between, at);
  }

  lemma {:induction false} RunEndsLate(limit: Limit, cell: Cell, from: int, events: seq<Event>, until: int)
    requires limit.Valid() && Bounded(limit, cell) && IsRun(limit, cell, from, events, until)
    ensures from <= until && (events != [] ==> events[0].at <= until)
    decreases |events|
  {
    if events != [] {
      RunEndsLate(limit, Apply(limit, cell, events[0]), events[0].at, events[1..], until);
    }
  }

  /** A rejected bucket has tokens again at its reset. */
  lemma AdmittedFromReset(limit: Limit, cell: Cell, now: int, at: int)
    requires limit.Valid() && CellInv(limit, cell, now) && limit.maxTokens > 0
    requires !Attempt(limit, cell, now).1.Admitted() && Attempt(limit, cell, now).1.reset <= at
    ensures Attempt(limit, cell, at).1.Admitted()
  {
    var n := LazyEqualsEager(limit, cell.bucket, at);
    TicksClosedForm(limit, cell.bucket, n);
    var m := LazyEqualsEager(limit, cell.bucket, now);
    TicksClosedForm(limit, cell.bucket, m);
    MulStep(n, m, limit.interval);
    MulStep(1, n, limit.refillRate);
    MulStep(0, m, limit.refillRate);
  }

  /**
   The reset time is exact. After a rejection that promised `reset`, all calls before `reset` are rejected and leave
   the key as it was, and the first call from `reset` on is admitted, whether the key has expired by then or not.
   The one exception is a limit of zero tokens, which never admits anything.
   */
  lemma ResetExact(limit: Limit, cell: Cell, now: int, between: seq<Event>, at: int)
    requires limit.Valid() && CellInv(limit, cell, now)
    requires !Attempt(limit, cell, now).1.Admitted() && IsRun(limit, cell, now, between, at)
    requires CallsBefore(between, Attempt(limit, cell, now).1.reset)
    ensures Admissions(limit, cell, between) == 0
    ensures at < Attempt(limit, cell, now).1.reset ==> Final(limit, cell, between) == cell
    ensures at >= Attempt(limit, cell, now).1.reset ==>
      (Attempt(limit, Final(limit, cell, between), at).1.Admitted() <==> limit.maxTokens > 0)
  {
    if limit.maxTokens == 0 {
      ZeroLimitRejects(limit, now, between, at);
    } else {
      RejectedUntilReset(limit, cell, now, between, at);
      if at >= Attempt(limit, cell, now).1.reset {
        AdmittedFromReset(limit, cell, now, at);
      }
    }
  }
}
