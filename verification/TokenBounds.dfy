/**
 What a bucket must admit: calls at one moment take one token each, and over whole runs the admissions are bounded
 from below as well as from above.
 */
module TokenBounds {
  import opened Arithmetic
  import opened TokenBucket

  /** `n` calls at one moment. */
  function Calls(now: int, n: nat): seq<Event> {
    if n == 0 then [] else [Call(now)] + Calls(now, n - 1)
  }

  /** The verdict of one more call after these events. */
  function VerdictAfter(limit: Limit, cell: Cell, events: seq<Event>, now: int): Verdict
    requires limit.Valid() && Bounded(limit, cell)
  {
    Attempt(limit, Final(limit, cell, events), now).1
  }

  /** Without time passing a bucket is not refilled again. */
  lemma RefilledOnce(limit: Limit, b: Bucket, now: int, tokens: nat)
    requires limit.Valid() && b.tokens <= limit.maxTokens && b.refilledAt <= now
    ensures Refill(limit, Bucket(Refill(limit, b, now).refilledAt, tokens), now)
         == Bucket(Refill(limit, b, now).refilledAt, tokens)
  {
    RefillMark(limit, b, now);
  }

  /** A call takes one token, if there is one, and leaves the mark in force. */
  lemma CallTakesOne(limit: Limit, cell: Cell, now: int)
    requires limit.Valid() && CellInv(limit, cell, now)
    ensures
      var n, next := Available(limit, cell, now), Apply(limit, cell, Call(now));
      && CellInv(limit, next, now) && (Admits(limit, cell, Call(now)) <==> n > 0)
      && Available(limit, next, now) == (if n > 0 then n - 1 else 0)
      && Mark(limit, next, now) == Mark(limit, cell, now)
      && VerdictAfter(limit, cell, [], now).remaining == n - 1
  {
    StepKeepsCellInv(limit, cell, now, Call(now));
    var n := Available(limit, cell, now);
    if n > 0 {
      RefilledOnce(limit, Load(limit, cell, now), now, n - 1);
    }
  }

  lemma {:induction false} AfterCalls(limit: Limit, cell: Cell, now: int, n: nat)
    requires limit.Valid() && CellInv(limit, cell, now)
    ensures
      var left := Available(limit, cell, now) - n;
      && IsRun(limit, cell, now, Calls(now, n), now)
      && Admissions(limit, cell, Calls(now, n)) == Min(n, Available(limit, cell, now))
      && CellInv(limit, Final(limit, cell, Calls(now, n)), now)
      && Available(limit, Final(limit, cell, Calls(now, n)), now) == (if left >= 0 then left else 0)
      && Mark(limit, Final(limit, cell, Calls(now, n)), now) == Mark(limit, cell, now)
    decreases n
  {
    if n > 0 {
      CallTakesOne(limit, cell, now);
      assert Calls(now, n)[1..] == Calls(now, n - 1);
      AfterCalls(limit, Apply(limit, cell, Call(now)), now, n - 1);
    }
  }

  /**
   Of any number of calls at one moment the k-th is admitted if and only if there were k tokens, and it is told how many
   are left.
   */
  lemma BurstExact(limit: Limit, cell: Cell, now: int, k: nat)
    requires limit.Valid() && CellInv(limit, cell, now) && k > 0
    ensures
      var v, n := VerdictAfter(limit, cell, Calls(now, k - 1), now), Available(limit, cell, now);
      (v.Admitted() <==> k <= n) && v.remaining == (if k <= n then n - k else -1)
    ensures Admissions(limit, cell, Calls(now, k)) == Min(k, Available(limit, cell, now))
  {
    AfterCalls(limit, cell, now, k - 1);
    CallTakesOne(limit, Final(limit, cell, Calls(now, k - 1)), now);
    AfterCalls(limit, cell, now, k);
  }

  /** A key that is not there admits as many calls at once as its maximum. */
  lemma AbsentBurst(limit: Limit, now: int, k: nat)
    requires limit.Valid() && k > 0
    ensures
      var v := VerdictAfter(limit, Absent, Calls(now, k - 1), now);
      && (v.Admitted() <==> k <= limit.maxTokens)
      && v.remaining == (if k <= limit.maxTokens then limit.maxTokens - k else -1)
  {
    BurstExact(limit, Absent, now, k);
  }

  // ----- From below -----

  lemma LaterTokens(limit: Limit, b: Bucket, t1: int, t2: int) returns (n: nat)
    requires limit.Valid() && b.tokens <= limit.maxTokens && b.refilledAt <= t1 <= t2
    ensures n == (t2 - Refill(limit, b, t1).refilledAt) / limit.interval
    ensures Refill(limit, b, t2).tokens == Min(limit.maxTokens, Refill(limit, b, t1).tokens + n * limit.refillRate)
  {
    RefillMark(limit, b, t1);
    RefillCompose(limit, b, t1, t2);
    n := LaterTicks(limit, Refill(limit, b, t1), t2);
  }

  lemma LaterTicks(limit: Limit, b: Bucket, now: int) returns (n: nat)
    requires limit.Valid() && b.tokens <= limit.maxTokens && b.refilledAt <= now
    ensures n == (now - b.refilledAt) / limit.interval
    ensures Refill(limit, b, now).tokens == Min(limit.maxTokens, b.tokens + n * limit.refillRate)
  {
    n := LazyEqualsEager(limit, b, now);
    TicksClosedForm(limit, b, n);
  }

  lemma LaterAvailable(limit: Limit, cell: Cell, t1: int, t2: int)
    requires limit.Valid() && CellInv(limit, cell, t1) && t1 <= t2
    ensures Available(limit, cell, t2) == Min(limit.maxTokens,
              Available(limit, cell, t1) + limit.refillRate * ((t2 - Mark(limit, cell, t1)) / limit.interval))
  {
    match cell
    case Absent =>
      DivBounds(t2 - t1, limit.interval);
      MulNonNegative(limit.refillRate, (t2 - t1) / limit.interval);
    case Live(b, _) =>
      var n := LaterTokens(limit, b, t1, t2);
      assert n * limit.refillRate == limit.refillRate * n;
  }

  /** What an event leaves to be had later is at most one token less, and no less when it admits nothing. */
  lemma EventCostsOne(limit: Limit, cell: Cell, e: Event, until: int)
    requires limit.Valid() && CellInv(limit, cell, e.at) && Enabled(cell, e) && e.at <= until
    ensures Available(limit, cell, until)
         <= Available(limit, Apply(limit, cell, e), until) + (if Admits(limit, cell, e) then 1 else 0)
  {
    LaterAvailable(limit, cell, e.at, until);
    match e
    case Call(at) =>
      CallTakesOne(limit, cell, at);
      LaterAvailable(limit, Apply(limit, cell, e), at, until);
    case Expire(_) =>
  }

  lemma {:induction false} FloorOverRun(limit: Limit, cell: Cell, from: int, events: seq<Event>, until: int)
    requires limit.Valid() && CellInv(limit, cell, from) && IsRun(limit, cell, from, events, until)
    ensures Available(limit, cell, until)
         <= Available(limit, Final(limit, cell, events), until) + Admissions(limit, cell, events)
    decreases |events|
  {
    if events != [] {
      RunEndsLate(limit, cell, from, events, until);
      InvLater(limit, cell, from, events[0].at);
      EventCostsOne(limit, cell, events[0], until);
      StepKeepsCellInv(limit, cell, from, events[0]);
      FloorOverRun(limit, Apply(limit, cell, events[0]), events[0].at, events[1..], until);
    }
  }

  lemma InvLater(limit: Limit, cell: Cell, t1: int, t2: int)
    requires limit.Valid() && CellInv(limit, cell, t1) && t1 <= t2
    ensures CellInv(limit, cell, t2)
  {
  }

  /**
   The counterpart of RunBound, for any calls and expiries before and in the window [t1, t2]: when a call at `t2` is
   rejected, the window has admitted all the tokens there were at `t1` and all that were put back since, up to the
   maximum. A call is never rejected for less.
   */
  lemma RunFloor(limit: Limit, start: int, before: seq<Event>, t1: int, window: seq<Event>, t2: int)
    requires limit.Valid() && IsRun(limit, Absent, start, before, t1)
    requires IsRun(limit, Final(limit, Absent, before), t1, window, t2)
    ensures
      var cell := Final(limit, Absent, before);
      var p0 := Mark(limit, cell, t1);
      !VerdictAfter(limit, cell, window, t2).Admitted() ==>
        Admissions(limit, cell, window)
        >= Min(limit.maxTokens, Available(limit, cell, t1) + limit.refillRate * ((t2 - p0) / limit.interval))
  {
    RunKeepsCellInv(limit, Absent, start, before, t1);
    var cell := Final(limit, Absent, before);
    RunKeepsCellInv(limit, cell, t1, window, t2);
    RunEndsLate(limit, cell, t1, window, t2);
    FloorOverRun(limit, cell, t1, window, t2);
    LaterAvailable(limit, cell, t1, t2);
    CallTakesOne(limit, Final(limit, cell, window), t2);
  }

  // ----- The upper bound is reached -----

  lemma {:induction false} RunAppend(limit: Limit, cell: Cell, from: int, first: seq<Event>, mid: int,
                                     second: seq<Event>, until: int)
    requires limit.Valid() && Bounded(limit, cell) && IsRun(limit, cell, from, first, mid)
    requires IsRun(limit, Final(limit, cell, first), mid, second, until)
    ensures IsRun(limit, cell, from, first + second, until)
    ensures Admissions(limit, cell, first + second)
         == Admissions(limit, cell, first) + Admissions(limit, Final(limit, cell, first), second)
    decreases |first|
  {
    if first == [] {
      assert first + second == second;
    } else {
      assert (first + second)[1..] == first[1..] + second;
      RunAppend(limit, Apply(limit, cell, first[0]), first[0].at, first[1..], mid, second, until);
    }
  }

  /** The client takes everything at the next mark. */
  lemma TakeAtNext(limit: Limit, cell: Cell, from: int) returns (next: int, run: seq<Event>)
    requires limit.Valid() && CellInv(limit, cell, from) && cell.Live? && Available(limit, cell, from) == 0
    ensures next == Mark(limit, cell, from) + limit.interval && from <= next && IsRun(limit, cell, from, run, next)
    ensures Admissions(limit, cell, run) == Min(limit.maxTokens, limit.refillRate)
    ensures
      var later := Final(limit, cell, run);
      && CellInv(limit, later, next) && later.Live? && Available(limit, later, next) == 0
      && Mark(limit, later, next) == next
  {
    var rate := Min(limit.maxTokens, limit.refillRate);
    next := Mark(limit, cell, from) + limit.interval;
    NextMark(limit, cell, from);
    AfterCalls(limit, cell, next, rate);
    run := Calls(next, rate);
    StaysLive(limit, cell, run, next, rate);
    RunLater(limit, cell, from, next, run, next);
  }

  lemma OneLess(m: nat, step: nat)
    requires m > 0
    ensures m * step == step + (m - 1) * step && step <= m * step
  {
    MulNonNegative(m - 1, step);
    assert m * step == step + (m - 1) * step;
  }

  /** A client that takes everything at every mark gets what each mark puts back. */
  lemma {:induction false} TakeAtMarks(limit: Limit, cell: Cell, from: int, m: nat, until: int)
      returns (run: seq<Event>)
    requires limit.Valid() && CellInv(limit, cell, from) && cell.Live?
    requires Available(limit, cell, from) == 0 && Mark(limit, cell, from) + m * limit.interval <= until && from <= until
    ensures IsRun(limit, cell, from, run, until)
    ensures Admissions(limit, cell, run) == m * Min(limit.maxTokens, limit.refillRate)
    decreases m
  {
    if m == 0 {
      run := [];
    } else {
      var next, first := TakeAtNext(limit, cell, from);
      OneLess(m, limit.interval);
      var rest := TakeAtMarks(limit, Final(limit, cell, first), next, m - 1, until);
      RunAppend(limit, cell, from, first, next, rest, until);
      run := first + rest;
      OneLess(m, Min(limit.maxTokens, limit.refillRate));
    }
  }

  lemma NextMark(limit: Limit, cell: Cell, from: int)
    requires limit.Valid() && CellInv(limit, cell, from) && cell.Live? && Available(limit, cell, from) == 0
    ensures
      var next := Mark(limit, cell, from) + limit.interval;
      && from <= next && CellInv(limit, cell, next) && Mark(limit, cell, next) == next
      && Available(limit, cell, next) == Min(limit.maxTokens, limit.refillRate)
  {
    var b := cell.bucket;
    RefillMark(limit, b, from);
    var mid := Refill(limit, b, from);
    RefillCompose(limit, b, from, mid.refilledAt + limit.interval);
    DivUnique(limit.interval, limit.interval, 1);
  }

  lemma {:induction false} StaysLive(limit: Limit, cell: Cell, events: seq<Event>, now: int, n: nat)
    requires limit.Valid() && CellInv(limit, cell, now) && cell.Live? && events == Calls(now, n)
    ensures Final(limit, cell, events).Live?
    decreases n
  {
    if n > 0 {
      CallTakesOne(limit, cell, now);
      assert Calls(now, n)[1..] == Calls(now, n - 1);
      StaysLive(limit, Apply(limit, cell, Call(now)), Calls(now, n - 1), now, n - 1);
    }
  }

  lemma RunLater(limit: Limit, cell: Cell, from: int, at: int, events: seq<Event>, until: int)
    requires limit.Valid() && Bounded(limit, cell) && from <= at && IsRun(limit, cell, at, events, until)
    ensures IsRun(limit, cell, from, events, until)
  {
  }

  /** The client takes everything there is. */
  lemma TakeAll(limit: Limit, cell: Cell, now: int) returns (run: seq<Event>)
    requires limit.Valid() && CellInv(limit, cell, now) && (cell.Absent? ==> limit.maxTokens > 0)
    ensures IsRun(limit, cell, now, run, now) && Admissions(limit, cell, run) == Available(limit, cell, now)
    ensures
      var drained := Final(limit, cell, run);
      && CellInv(limit, drained, now) && drained.Live? && Available(limit, drained, now) == 0
      && Mark(limit, drained, now) == Mark(limit, cell, now)
  {
    var n := Available(limit, cell, now);
    run := Calls(now, n);
    AfterCalls(limit, cell, now, n);
    if n > 0 {
      CallTakesOne(limit, cell, now);
      assert run[1..] == Calls(now, n - 1);
      StaysLive(limit, Apply(limit, cell, Call(now)), run[1..], now, n - 1);
    }
  }

  /**
   The bound of RunBound is the best there is: from every reachable bucket some window [t1, t2] admits all the tokens
   there are and all that the marks put back, which is that bound when the bucket is full at `t1` and a refill fits
   into it.
   */
  lemma BoundReached(limit: Limit, cell: Cell, t1: int, t2: int) returns (window: seq<Event>)
    requires limit.Valid() && CellInv(limit, cell, t1) && t1 <= t2
    ensures IsRun(limit, cell, t1, window, t2)
    ensures Admissions(limit, cell, window)
         == Available(limit, cell, t1)
            + Min(limit.maxTokens, limit.refillRate) * ((t2 - Mark(limit, cell, t1)) / limit.interval)
  {
    if cell.Absent? && limit.maxTokens == 0 {
      window := [];
    } else {
      var m := MarksUntil(limit, cell, t1, t2);
      window := TakeAllAlong(limit, cell, t1, m, t2);
      assert m * Min(limit.maxTokens, limit.refillRate) == Min(limit.maxTokens, limit.refillRate) * m;
    }
  }

  lemma MarksUntil(limit: Limit, cell: Cell, t1: int, t2: int) returns (m: nat)
    requires limit.Valid() && CellInv(limit, cell, t1) && t1 <= t2
    ensures m == (t2 - Mark(limit, cell, t1)) / limit.interval
    ensures Mark(limit, cell, t1) + m * limit.interval <= t2
  {
    RefillMark(limit, Load(limit, cell, t1), t1);
    DivBounds(t2 - Mark(limit, cell, t1), limit.interval);
    m := (t2 - Mark(limit, cell, t1)) / limit.interval;
  }

  lemma TakeAllAlong(limit: Limit, cell: Cell, t1: int, m: nat, t2: int) returns (window: seq<Event>)
    requires limit.Valid() && CellInv(limit, cell, t1) && (cell.Absent? ==> limit.maxTokens > 0)
    requires Mark(limit, cell, t1) + m * limit.interval <= t2 && t1 <= t2
    ensures IsRun(limit, cell, t1, window, t2)
    ensures Admissions(limit, cell, window)
         == Available(limit, cell, t1) + m * Min(limit.maxTokens, limit.refillRate)
  {
    var first := TakeAll(limit, cell, t1);
    var rest := TakeAtMarks(limit, Final(limit, cell, first), t1, m, t2);
    RunAppend(limit, cell, t1, first, t1, rest, t2);
    window := first + rest;
  }

  // ----- How long a key is kept -----

  /** After an admission the key is kept for as many intervals as the bucket takes to be full, and no more. */
  lemma KeptUntilFull(limit: Limit, cell: Cell, now: int) returns (k: nat)
    requires limit.Valid() && CellInv(limit, cell, now) && Admits(limit, cell, Call(now))
    ensures
      var next := Apply(limit, cell, Call(now));
      && next.Live? && next.expiresAt == now + k * limit.interval && k > 0
      && Ticks(limit, next.bucket, k).tokens == limit.maxTokens
      && Ticks(limit, next.bucket, k - 1).tokens < limit.maxTokens
  {
    CallTakesOne(limit, cell, now);
    RefillMark(limit, Load(limit, cell, now), now);
    var b := Apply(limit, cell, Call(now)).bucket;
    k := CeilDiv(limit.maxTokens - b.tokens, limit.refillRate);
    TicksClosedForm(limit, b, k);
    TicksClosedForm(limit, b, k - 1);
    assert (k - 1) * limit.refillRate == k * limit.refillRate - limit.refillRate;
  }
}
