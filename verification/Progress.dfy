/**
 Progress of a worker's loop, whatever the others do and however late outcomes are written: a pair of numbers that no
 step increases, as long as no rows come in and failed attempts take time, and that every turn of the loop decreases.
 */
module Progress {
  import opened Wrappers
  import opened Queue
  import opened LeaseProtocol
  import opened QueueWork

  /** What every reachable state is. */
  ghost predicate Sound(s: Sys) {
    Consistent(s) && AttemptsKnown(s) && VerdictsKnown(s)
  }

  lemma StepSound(s: Sys, step: Step)
    requires Sound(s) && Enabled(s, step)
    ensures Sound(Next(s, step))
  {
    StepConsistent(s, step);
    StepAttemptsKnown(s, step);
    StepVerdictsKnown(s, step);
  }

  lemma {:induction false} RunSound(s: Sys, steps: seq<Step>)
    requires Sound(s) && IsRun(s, steps)
    ensures Sound(After(s, steps))
    decreases |steps|
  {
    if steps != [] {
      StepSound(s, steps[0]);
      RunSound(Next(s, steps[0]), steps[1..]);
    }
  }

  // ----- Runs without new rows -----

  predicate IsClosedRun(s: Sys, steps: seq<Step>)
    decreases |steps|
  {
    steps != [] ==>
      && Enabled(s, steps[0]) && TakesTime(s, steps[0]) && AddsNoRows(steps[0])
      && IsClosedRun(Next(s, steps[0]), steps[1..])
  }

  /** `run` is such a run from `s` to `t`. */
  ghost predicate Reaches(s: Sys, run: seq<Step>, t: Sys) {
    IsClosedRun(s, run) && IsRun(s, run) && After(s, run) == t
  }

  lemma ReachesByStep(s: Sys, step: Step)
    requires Enabled(s, step) && TakesTime(s, step) && AddsNoRows(step)
    ensures Reaches(s, [step], Next(s, step))
  {
    assert [step][1..] == [];
  }

  lemma {:induction false} ReachesThen(s: Sys, first: seq<Step>, t: Sys, second: seq<Step>, u: Sys)
    requires Reaches(s, first, t) && Reaches(t, second, u)
    ensures Reaches(s, first + second, u)
    decreases |first|
  {
    if first == [] {
      assert first + second == second;
    } else {
      assert (first + second)[1..] == first[1..] + second;
      ReachesThen(Next(s, first[0]), first[1..], t, second, u);
    }
  }

  lemma {:induction false} TimelyIsQuiet(s: Sys, steps: seq<Step>)
    requires IsClosedRun(s, steps) && IsTimelyRun(s, steps)
    ensures IsQuietRun(s, steps)
    decreases |steps|
  {
    if steps != [] {
      TimelyIsQuiet(Next(s, steps[0]), steps[1..]);
    }
  }

  /** If everyone was on time, the leases hold at the end too, and there is no more work than before. */
  lemma OnTime(s: Sys, run: seq<Step>, t: Sys)
    requires Reaches(s, run, t) && Safe(s) && Stamped(s) && IsTimelyRun(s, run)
    ensures Safe(t) && Stamped(t) && Work(t) <= Work(s)
  {
    TimelyIsQuiet(s, run);
    OutcomesAreBounded(s, run);
  }

  // ----- What lateness does to the number of outcomes -----

  /** `run` is such a run from `s` to `t`, and `n` of its outcomes reach their row. */
  ghost predicate Lands(s: Sys, run: seq<Step>, t: Sys, n: nat) {
    Reaches(s, run, t) && OutcomesLanded(s, run) == n
  }

  lemma LandsByStep(s: Sys, step: Step)
    requires Enabled(s, step) && TakesTime(s, step) && AddsNoRows(step)
    ensures Lands(s, [step], Next(s, step), Landed(s, step))
  {
    assert [step][1..] == [];
    assert OutcomesLanded(Next(s, step), []) == 0;
  }

  lemma {:induction false} LandsThen(s: Sys, first: seq<Step>, t: Sys, m: nat, second: seq<Step>, u: Sys, n: nat)
    requires Lands(s, first, t, m) && Lands(t, second, u, n)
    ensures Lands(s, first + second, u, m + n)
    decreases |first|
  {
    if first == [] {
      assert first + second == second;
    } else {
      var next := Next(s, first[0]);
      assert (first + second)[1..] == first[1..] + second;
      LandsThen(next, first[1..], t, m - Landed(s, first[0]), second, u, n);
    }
  }

  /**
   OutcomesAreBounded needs outcomes within the lease: without it, from every state with a queued row, any number of
   outcomes can be written to that row. The worker that has published it waits longer than the lease before it writes,
   and meanwhile the row is swept and picked again.
   */
  lemma OutcomesPileUp(s: Sys, row: Uuid, n: nat) returns (run: seq<Step>)
    requires row in s.deliveries && s.deliveries[row].status == Queued
    requires s.deliveries[row].notification in s.notifications
    ensures IsClosedRun(s, run) && IsRun(s, run) && OutcomesLanded(s, run) == n
  {
    var first := SomeAbove(s.attempts.Keys);
    run := PileUp(s, row, first, n);
  }

  /** With the workers from `first` on. */
  lemma {:induction false} PileUp(s: Sys, row: Uuid, first: Uuid, n: nat) returns (run: seq<Step>)
    requires row in s.deliveries && s.deliveries[row].status == Queued
    requires s.deliveries[row].notification in s.notifications
    requires forall w :: w in s.attempts ==> w < first
    ensures IsRun(s, run)
    ensures Lands(s, run, After(s, run), n)
    ensures row in After(s, run).deliveries
    ensures forall w :: w in s.attempts ==> w in After(s, run).attempts && After(s, run).attempts[w] == s.attempts[w]
    decreases n
  {
    if n == 0 {
      run := [];
    } else {
      var t, lead := PublishedAndSwept(s, row, first);
      var rest := PileUp(t, row, first + 1, n - 1);
      var u := After(t, rest);
      LandsThen(s, lead, t, 0, rest, u, n - 1);
      LandsByStep(u, StepRecord(first));
      LandsThen(s, lead + rest, u, n - 1, [StepRecord(first)], Next(u, StepRecord(first)), 1);
      run := lead + rest + [StepRecord(first)];
    }
  }

  /** The worker knows that it has published, and the row is queued again. */
  lemma PublishedAndSwept(s: Sys, row: Uuid, worker: Uuid) returns (t: Sys, run: seq<Step>)
    requires row in s.deliveries && s.deliveries[row].status == Queued
    requires s.deliveries[row].notification in s.notifications && worker !in s.attempts
    ensures Lands(s, run, t, 0)
    ensures row in t.deliveries && t.deliveries[row].status == Queued
    ensures t.notifications == s.notifications && t.deliveries[row].notification == s.deliveries[row].notification
    ensures worker in t.attempts && t.attempts[worker].delivery == row && t.attempts[worker].verdict == Some(Published)
    ensures forall w :: w in t.attempts <==> w in s.attempts || w == worker
    ensures forall w :: w in s.attempts ==> t.attempts[w] == s.attempts[w]
  {
    var picked := Next(s, StepPick(worker, row));
    var ended := Next(picked, StepEnd(worker, true));
    var waited := Next(ended, StepPass(s.now + PUBLISHING_TIMEOUT + 1));
    t := Next(waited, StepSweep(s.now + 1));
    LandsByStep(s, StepPick(worker, row));
    LandsByStep(picked, StepEnd(worker, true));
    LandsThen(s, [StepPick(worker, row)], picked, 0, [StepEnd(worker, true)], ended, 0);
    LandsByStep(ended, StepPass(s.now + PUBLISHING_TIMEOUT + 1));
    LandsByStep(waited, StepSweep(s.now + 1));
    LandsThen(ended, [StepPass(s.now + PUBLISHING_TIMEOUT + 1)], waited, 0, [StepSweep(s.now + 1)], t, 0);
    run := [StepPick(worker, row)] + [StepEnd(worker, true)];
    LandsThen(s, run, ended, 0, [StepPass(s.now + PUBLISHING_TIMEOUT + 1)] + [StepSweep(s.now + 1)], t, 0);
    run := run + ([StepPass(s.now + PUBLISHING_TIMEOUT + 1)] + [StepSweep(s.now + 1)]);
  }

  // ----- What is left to do -----

  /** The row is not done. */
  predicate IsOpen(s: Sys, id: Uuid) {
    id in s.deliveries && !s.deliveries[id].status.Terminal()
  }

  ghost function OpenRows(s: Sys): set<Uuid> {
    set id | id in s.deliveries && IsOpen(s, id)
  }

  /** The attempt may still put its row back into the queue, without that time passes. */
  predicate CanRequeue(a: Attempt, now: int) {
    || a.verdict == Some(Queued)
    || (a.verdict.None? && a.pickedAt < now && !GiveUp(a.notificationCreatedAt, now))
  }

  ghost function Requeuing(s: Sys): set<Uuid> {
    set w | w in s.attempts && CanRequeue(s.attempts[w], s.now)
  }

  ghost function Remaining(s: Sys): nat {
    |OpenRows(s)| + |Requeuing(s)|
  }

  /** From `deadline` on, whatever fails is given up. */
  ghost predicate HasDeadline(s: Sys, deadline: int) {
    && (forall id :: id in s.deliveries ==>
          && s.deliveries[id].notification in s.notifications
          && s.notifications[s.deliveries[id].notification].createdAt + PUBLISHING_GIVE_UP_TIMEOUT < deadline)
    && (forall w :: w in s.attempts ==>
          s.attempts[w].notificationCreatedAt + PUBLISHING_GIVE_UP_TIMEOUT < deadline)
  }

  lemma {:induction false} SomeAbove(times: set<int>) returns (d: nat)
    ensures forall t :: t in times ==> t < d
    decreases times
  {
    d := 0;
    if t :| t in times {
      var e := SomeAbove(times - {t});
      d := if e <= t then t + 1 else e;
      forall u | u in times ensures u < d {
        assert u == t || u in times - {t};
      }
    }
  }

  lemma SomeDeadline(s: Sys) returns (d: int)
    requires Consistent(s)
    ensures HasDeadline(s, d)
  {
    forall id | id in s.deliveries ensures s.deliveries[id].notification in s.notifications {
      RowHasNotification(s, id);
    }
    var rows := set id | id in s.deliveries :: s.notifications[s.deliveries[id].notification].createdAt;
    var attempts := set w | w in s.attempts :: s.attempts[w].notificationCreatedAt;
    var e := SomeAbove(rows + attempts);
    d := e + PUBLISHING_GIVE_UP_TIMEOUT;
    forall id | id in s.deliveries ensures s.notifications[s.deliveries[id].notification].createdAt < e {
      assert s.notifications[s.deliveries[id].notification].createdAt in rows;
    }
    forall w | w in s.attempts ensures s.attempts[w].notificationCreatedAt < e {
      assert s.attempts[w].notificationCreatedAt in attempts;
    }
  }

  /** `t` is as far as `s`, or further: less time is left until the deadline, or as much time and no more to do. */
  ghost predicate AsFar(s: Sys, t: Sys, deadline: int) {
    || Slack(deadline, t.now) < Slack(deadline, s.now)
    || (Slack(deadline, t.now) == Slack(deadline, s.now) && Remaining(t) <= Remaining(s))
  }

  ghost predicate Further(s: Sys, t: Sys, deadline: int) {
    || Slack(deadline, t.now) < Slack(deadline, s.now)
    || (Slack(deadline, t.now) == Slack(deadline, s.now) && Remaining(t) < Remaining(s))
  }

  // ----- One step -----

  lemma KeepsDeadline(s: Sys, step: Step, d: int)
    requires Sound(s) && HasDeadline(s, d) && Enabled(s, step) && AddsNoRows(step)
    ensures HasDeadline(Next(s, step), d)
  {
    var t := Next(s, step);
    forall id | id in t.deliveries
      ensures t.deliveries[id].notification in t.notifications
      ensures t.notifications[t.deliveries[id].notification].createdAt + PUBLISHING_GIVE_UP_TIMEOUT < d
    {
      KeepsSubject(s, step, id);
    }
    forall w | w in t.attempts ensures t.attempts[w].notificationCreatedAt + PUBLISHING_GIVE_UP_TIMEOUT < d {
      KeepsAge(s, step, w);
    }
  }

  lemma KeepsSubject(s: Sys, step: Step, id: Uuid)
    requires Enabled(s, step) && AddsNoRows(step) && id in Next(s, step).deliveries
    ensures id in s.deliveries && Next(s, step).deliveries[id].notification == s.deliveries[id].notification
    ensures forall n :: n in s.notifications ==>
      n in Next(s, step).notifications && Next(s, step).notifications[n] == s.notifications[n]
  {
  }

  lemma KeepsAge(s: Sys, step: Step, w: Uuid)
    requires Enabled(s, step) && AddsNoRows(step) && w in Next(s, step).attempts
    ensures
      var a := Next(s, step).attempts[w];
      if step.StepPick? && w == step.worker then
        a.notificationCreatedAt == s.notifications[s.deliveries[step.delivery].notification].createdAt
      else
        w in s.attempts && a.notificationCreatedAt == s.attempts[w].notificationCreatedAt
  {
  }

  /** Only the write of an outcome opens a row. */
  lemma OpensNone(s: Sys, step: Step, id: Uuid)
    requires Enabled(s, step) && AddsNoRows(step) && !step.StepRecord? && IsOpen(Next(s, step), id)
    ensures IsOpen(s, id)
  {
  }

  /** An attempt that can requeue could do so before, unless the time has changed. */
  lemma RequeuesNoMore(s: Sys, step: Step, w: Uuid)
    requires Enabled(s, step) && AddsNoRows(step) && TakesTime(s, step) && Next(s, step).now == s.now
    requires w in Requeuing(Next(s, step))
    ensures w in Requeuing(s)
  {
  }

  lemma Fewer(s: Sys, t: Sys)
    requires OpenRows(t) <= OpenRows(s) && Requeuing(t) <= Requeuing(s)
    ensures Remaining(t) <= Remaining(s)
    ensures OpenRows(t) != OpenRows(s) ==> Remaining(t) < Remaining(s)
  {
    SubsetSize(OpenRows(t), OpenRows(s));
    SubsetSize(Requeuing(t), Requeuing(s));
  }

  lemma SubsetSize<T>(a: set<T>, b: set<T>)
    requires a <= b
    ensures |a| <= |b| && (a != b ==> |a| < |b|)
  {
    assert b == a + (b - a);
    assert a != b ==> b - a != {};
  }

  /** Any step but the write of an outcome and the passing of time. */
  lemma OtherAsFar(s: Sys, step: Step)
    requires Enabled(s, step) && AddsNoRows(step) && TakesTime(s, step) && !step.StepRecord? && !step.StepPass?
    ensures OpenRows(Next(s, step)) <= OpenRows(s) && Requeuing(Next(s, step)) <= Requeuing(s)
    ensures Next(s, step).now == s.now
  {
    SameTime(s, step);
    forall id | id in OpenRows(Next(s, step)) ensures id in OpenRows(s) {
      OpensNone(s, step, id);
    }
    forall w | w in Requeuing(Next(s, step)) ensures w in Requeuing(s) {
      RequeuesNoMore(s, step, w);
    }
  }

  lemma SameTime(s: Sys, step: Step)
    requires Enabled(s, step) && AddsNoRows(step) && !step.StepPass?
    ensures Next(s, step).now == s.now
  {
  }

  /** Passing time: before the deadline less of it is left, and from the deadline on nothing more can be requeued. */
  lemma PassAsFar(s: Sys, to: int, d: int)
    requires HasDeadline(s, d) && s.now <= to
    ensures AsFar(s, s.(now := to), d)
  {
    var t := s.(now := to);
    assert OpenRows(t) == OpenRows(s);
    if Slack(d, to) == Slack(d, s.now) {
      assert Requeuing(t) <= Requeuing(s);
      Fewer(s, t);
    }
  }

  /** A terminal outcome closes the row if it is open. */
  lemma DoneRows(s: Sys, worker: Uuid)
    requires Enabled(s, StepRecord(worker)) && s.attempts[worker].verdict.value.Terminal()
    ensures OpenRows(Next(s, StepRecord(worker))) == OpenRows(s) - {s.attempts[worker].delivery}
    ensures Requeuing(Next(s, StepRecord(worker))) <= Requeuing(s)
  {
  }

  /** An attempt that requeues its row does so once. */
  lemma RequeuedRows(s: Sys, worker: Uuid)
    requires Enabled(s, StepRecord(worker)) && s.attempts[worker].verdict.value == Queued
    ensures
      var t, id := Next(s, StepRecord(worker)), s.attempts[worker].delivery;
      && OpenRows(t) == (if id in s.deliveries then OpenRows(s) + {id} else OpenRows(s))
      && Requeuing(t) == Requeuing(s) - {worker} && worker in Requeuing(s)
  {
  }

  lemma RecordAsFar(s: Sys, worker: Uuid)
    requires VerdictsKnown(s) && Enabled(s, StepRecord(worker))
    ensures
      var t, id := Next(s, StepRecord(worker)), s.attempts[worker].delivery;
      && t.now == s.now && Remaining(t) <= Remaining(s)
      && (s.attempts[worker].verdict.value.Terminal() && IsOpen(s, id) ==> Remaining(t) < Remaining(s))
  {
    if s.attempts[worker].verdict.value.Terminal() {
      DoneRows(s, worker);
      Fewer(s, Next(s, StepRecord(worker)));
    } else {
      RequeuedRows(s, worker);
    }
  }

  /** The row is closed by this step only if there is less to do. */
  ghost predicate ClosedForLess(s: Sys, t: Sys, id: Uuid, deadline: int) {
    AsFar(s, t, deadline) && (IsOpen(s, id) && !IsOpen(t, id) ==> Further(s, t, deadline))
  }

  lemma RecordCloses(s: Sys, worker: Uuid, id: Uuid)
    requires VerdictsKnown(s) && Enabled(s, StepRecord(worker))
    requires IsOpen(s, id) && !IsOpen(Next(s, StepRecord(worker)), id)
    ensures s.attempts[worker].delivery == id && s.attempts[worker].verdict.value.Terminal()
  {
  }

  /** No step leads back, and one that closes a row leads on. */
  lemma StepAsFar(s: Sys, step: Step, id: Uuid, d: int)
    requires Sound(s) && HasDeadline(s, d) && Enabled(s, step) && AddsNoRows(step) && TakesTime(s, step)
    ensures ClosedForLess(s, Next(s, step), id, d)
  {
    if step.StepRecord? {
      RecordClosesForLess(s, step.worker, id, d);
    } else if step.StepPass? {
      PassClosesNone(s, step.to, id, d);
    } else {
      OtherClosesForLess(s, step, id, d);
    }
  }

  lemma PassClosesNone(s: Sys, to: int, id: Uuid, d: int)
    requires HasDeadline(s, d) && Enabled(s, StepPass(to))
    ensures ClosedForLess(s, Next(s, StepPass(to)), id, d)
  {
    PassAsFar(s, to, d);
    assert IsOpen(s.(now := to), id) <==> IsOpen(s, id);
  }

  lemma OtherClosesForLess(s: Sys, step: Step, id: Uuid, d: int)
    requires Enabled(s, step) && AddsNoRows(step) && TakesTime(s, step) && !step.StepRecord? && !step.StepPass?
    ensures ClosedForLess(s, Next(s, step), id, d)
  {
    OtherAsFar(s, step);
    FewerIsFurther(s, Next(s, step), id, d);
  }

  lemma FewerIsFurther(s: Sys, t: Sys, id: Uuid, d: int)
    requires OpenRows(t) <= OpenRows(s) && Requeuing(t) <= Requeuing(s) && t.now == s.now
    ensures ClosedForLess(s, t, id, d)
  {
    Fewer(s, t);
    assert IsOpen(s, id) && !IsOpen(t, id) ==> id in OpenRows(s) && id !in OpenRows(t);
  }

  lemma RecordClosesForLess(s: Sys, worker: Uuid, id: Uuid, d: int)
    requires VerdictsKnown(s) && Enabled(s, StepRecord(worker))
    ensures ClosedForLess(s, Next(s, StepRecord(worker)), id, d)
  {
    RecordAsFar(s, worker);
    if IsOpen(s, id) && !IsOpen(Next(s, StepRecord(worker)), id) {
      RecordCloses(s, worker, id);
    }
  }

  lemma ClosedThen(s: Sys, t: Sys, u: Sys, id: Uuid, d: int)
    requires ClosedForLess(s, t, id, d) && ClosedForLess(t, u, id, d)
    ensures ClosedForLess(s, u, id, d)
  {
  }

  lemma FurtherThen(s: Sys, t: Sys, u: Sys, d: int)
    requires Further(s, t, d) && AsFar(t, u, d)
    ensures Further(s, u, d)
  {
  }

  // ----- One turn -----

  /** Since `s` there is less to do, or as little and the row that was picked since is not done. */
  ghost predicate OpenOrFurther(s: Sys, t: Sys, id: Uuid, deadline: int) {
    AsFar(s, t, deadline) && (IsOpen(t, id) || Further(s, t, deadline))
  }

  lemma StillOpenOrFurther(s: Sys, t: Sys, u: Sys, id: Uuid, d: int)
    requires OpenOrFurther(s, t, id, d) && ClosedForLess(t, u, id, d)
    ensures OpenOrFurther(s, u, id, d)
  {
  }

  /** An attempt that fails before the give-up time has used up some of the time. */
  lemma FailureTakesTime(s: Sys, t: Sys, worker: Uuid, ok: bool, d: int)
    requires HasDeadline(t, d) && Enabled(t, StepEnd(worker, ok)) && TakesTime(t, StepEnd(worker, ok))
    requires s.now <= t.attempts[worker].pickedAt && Verdict(t.attempts[worker], ok, t.now) == Queued
    ensures Slack(d, t.now) < Slack(d, s.now)
  {
  }

  /** The write of an outcome: a row that was still open is done, or time was used up before. */
  lemma WriteGoesFurther(s: Sys, t: Sys, worker: Uuid, d: int)
    requires VerdictsKnown(t) && Enabled(t, StepRecord(worker))
    requires OpenOrFurther(s, t, t.attempts[worker].delivery, d)
    requires t.attempts[worker].verdict.value == Queued ==> Further(s, t, d)
    ensures Further(s, Next(t, StepRecord(worker)), d)
  {
    RecordAsFar(t, worker);
  }
}
