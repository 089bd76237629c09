/**
 Safety of the delivery queue over all interleavings: the lease that a pick takes on a row, what holds when
 every outcome is written within the lease, what still holds when stale outcomes are written, and the
 idempotence of enqueueing.
 */
module LeaseProtocol {
  import opened Wrappers
  import opened Queue

  // ----- Leases -----

  /** The attempt's lease has not run out. */
  predicate Fresh(s: Sys, a: Attempt) {
    s.now <= a.pickedAt + PUBLISHING_TIMEOUT
  }

  /** An outcome is written within PUBLISHING_TIMEOUT of its pick. */
  predicate Timely(s: Sys, step: Step) {
    step.StepRecord? && step.worker in s.attempts ==> Fresh(s, s.attempts[step.worker])
  }

  predicate IsTimelyRun(s: Sys, steps: seq<Step>)
    decreases |steps|
  {
    steps != [] ==>
      Enabled(s, steps[0]) && Timely(s, steps[0]) && IsTimelyRun(Next(s, steps[0]), steps[1..])
  }

  /**
   The write of an outcome does no harm when its row is gone, or is not published yet and no other attempt whose
   lease has not run out is on it. Whether the write itself is late does not matter.
   */
  predicate Harmless(s: Sys, worker: Uuid)
    requires worker in s.attempts
  {
    var id := s.attempts[worker].delivery;
    id in s.deliveries ==> s.deliveries[id].status != Published && NoOtherOn(s, worker, id)
  }

  predicate NoOtherOn(s: Sys, worker: Uuid, id: Uuid) {
    forall v :: v in s.attempts && v != worker && Fresh(s, s.attempts[v]) ==> s.attempts[v].delivery != id
  }

  predicate Tame(s: Sys, step: Step) {
    step.StepRecord? && step.worker in s.attempts ==> Harmless(s, step.worker)
  }

  /** Within its lease an attempt holds its row: the row is still as the pick left it. */
  ghost predicate HoldsRow(s: Sys, a: Attempt) {
    a.delivery in s.deliveries ==>
      s.deliveries[a.delivery].status == Processing && s.deliveries[a.delivery].updatedAt == a.pickedAt
  }

  ghost predicate Leases(s: Sys) {
    && (forall w :: w in s.attempts && Fresh(s, s.attempts[w]) ==> HoldsRow(s, s.attempts[w]))
    && (forall v, w ::
          v in s.attempts && w in s.attempts && v != w && Fresh(s, s.attempts[v]) && Fresh(s, s.attempts[w]) ==>
          s.attempts[v].delivery != s.attempts[w].delivery)
  }

  ghost predicate VerdictsKnown(s: Sys) {
    forall w :: w in s.attempts && s.attempts[w].verdict.Some? ==> s.attempts[w].verdict.value != Processing
  }

  function Publications(history: seq<Event>, id: Uuid): nat {
    if history == [] then
      0
    else
      var e := history[|history| - 1];
      Publications(history[..|history| - 1], id) +
      if e.Recorded? && e.delivery == id && e.status == Published then 1 else 0
  }

  lemma PublicationsAppend(history: seq<Event>, e: Event, id: Uuid)
    ensures Publications(history + [e], id) == Publications(history, id) +
      if e.Recorded? && e.delivery == id && e.status == Published then 1 else 0
  {
    assert (history + [e])[..|history|] == history;
  }

  /** The row was recorded published at most once, and exactly when it is published now. */
  ghost predicate PublishedOnceAt(s: Sys, id: Uuid) {
    && Publications(s.history, id) <= 1
    && (id in s.deliveries ==> (Publications(s.history, id) == 1 <==> s.deliveries[id].status == Published))
    && (id !in s.origin ==> Publications(s.history, id) == 0)
  }

  ghost predicate PublishedOnce(s: Sys) {
    forall id :: PublishedOnceAt(s, id)
  }

  ghost predicate Safe(s: Sys) {
    Consistent(s) && AttemptsKnown(s) && VerdictsKnown(s) && Leases(s) && PublishedOnce(s)
  }

  lemma InitialSafe(now: int)
    ensures Safe(Initial(now))
  {
  }

  lemma StepVerdictsKnown(s: Sys, step: Step)
    requires Consistent(s) && VerdictsKnown(s) && Enabled(s, step)
    ensures VerdictsKnown(Next(s, step))
  {
    if step.StepEnqueue? {
      UpsertDeliveriesAdds(s, step.notification, step.targets, step.ids);
    }
  }

  lemma PickHoldsRow(s: Sys, step: Step, w: Uuid)
    requires AttemptsKnown(s) && Leases(s) && step.StepPick? && Enabled(s, step)
    requires w in Next(s, step).attempts && Fresh(Next(s, step), Next(s, step).attempts[w])
    ensures HoldsRow(Next(s, step), Next(s, step).attempts[w])
  {
    assert w != step.worker ==> Fresh(s, s.attempts[w]) && HoldsRow(s, s.attempts[w]);
  }

  lemma EnqueueHoldsRow(s: Sys, step: Step, w: Uuid)
    requires Consistent(s) && AttemptsKnown(s) && Leases(s) && step.StepEnqueue? && Enabled(s, step)
    requires w in s.attempts && Fresh(s, s.attempts[w])
    ensures Next(s, step).attempts == s.attempts && HoldsRow(Next(s, step), s.attempts[w])
  {
    UpsertDeliveriesAdds(s, step.notification, step.targets, step.ids);
    assert HoldsRow(s, s.attempts[w]);
  }

  /** Other steps leave the row of an unexpired attempt alone: harmless outcomes of others, sweeps and so on. */
  lemma OthersSpareRow(s: Sys, step: Step, w: Uuid)
    requires Leases(s) && Enabled(s, step) && Tame(s, step) && !step.StepPick? && !step.StepEnqueue?
    requires w in Next(s, step).attempts && w in s.attempts && Fresh(s, s.attempts[w])
    ensures HoldsRow(Next(s, step), Next(s, step).attempts[w])
  {
    assert HoldsRow(s, s.attempts[w]);
  }

  lemma StepHoldsRow(s: Sys, step: Step, w: Uuid)
    requires Consistent(s) && AttemptsKnown(s) && Leases(s) && Enabled(s, step) && Tame(s, step)
    requires w in Next(s, step).attempts && Fresh(Next(s, step), Next(s, step).attempts[w])
    ensures HoldsRow(Next(s, step), Next(s, step).attempts[w])
  {
    if step.StepPick? {
      PickHoldsRow(s, step, w);
    } else {
      StepKeepsAttempts(s, step, w);
      if step.StepEnqueue? {
        EnqueueHoldsRow(s, step, w);
      } else {
        OthersSpareRow(s, step, w);
      }
    }
  }

  /** Only a pick starts an attempt, and no step changes which row it is on or when it was picked. */
  lemma StepKeepsAttempts(s: Sys, step: Step, w: Uuid)
    requires Consistent(s) && Enabled(s, step) && !step.StepPick? && w in Next(s, step).attempts
    ensures w in s.attempts && s.now <= Next(s, step).now
    ensures Next(s, step).attempts[w].delivery == s.attempts[w].delivery
    ensures Next(s, step).attempts[w].pickedAt == s.attempts[w].pickedAt
  {
    if step.StepEnqueue? {
      UpsertDeliveriesAdds(s, step.notification, step.targets, step.ids);
    }
  }

  lemma StepSeparate(s: Sys, step: Step, v: Uuid, w: Uuid)
    requires Consistent(s) && AttemptsKnown(s) && Leases(s) && Enabled(s, step)
    requires v != w && v in Next(s, step).attempts && w in Next(s, step).attempts
    requires Fresh(Next(s, step), Next(s, step).attempts[v]) && Fresh(Next(s, step), Next(s, step).attempts[w])
    ensures Next(s, step).attempts[v].delivery != Next(s, step).attempts[w].delivery
  {
    if step.StepPick? {
      assert v != step.worker ==> Fresh(s, s.attempts[v]) && HoldsRow(s, s.attempts[v]);
      assert w != step.worker ==> Fresh(s, s.attempts[w]) && HoldsRow(s, s.attempts[w]);
    } else {
      StepKeepsAttempts(s, step, v);
      StepKeepsAttempts(s, step, w);
    }
  }

  lemma StepLeases(s: Sys, step: Step)
    requires Consistent(s) && AttemptsKnown(s) && Leases(s) && Enabled(s, step) && Tame(s, step)
    ensures Leases(Next(s, step))
  {
    var next := Next(s, step);
    forall w | w in next.attempts && Fresh(next, next.attempts[w])
      ensures HoldsRow(next, next.attempts[w])
    {
      StepHoldsRow(s, step, w);
    }
    forall v, w | v in next.attempts && w in next.attempts && v != w &&
                  Fresh(next, next.attempts[v]) && Fresh(next, next.attempts[w])
      ensures next.attempts[v].delivery != next.attempts[w].delivery
    {
      StepSeparate(s, step, v, w);
    }
  }

  lemma RecordPublishedOnceAt(s: Sys, worker: Uuid, id: Uuid)
    requires AttemptsKnown(s) && PublishedOnceAt(s, id) && Enabled(s, StepRecord(worker))
    requires s.attempts[worker].delivery in s.deliveries ==>
      s.deliveries[s.attempts[worker].delivery].status != Published
    ensures PublishedOnceAt(Next(s, StepRecord(worker)), id)
  {
    var a := s.attempts[worker];
    PublicationsAppend(s.history, Recorded(a.delivery, a.verdict.value, s.now), id);
  }

  lemma EnqueuePublishedOnceAt(s: Sys, step: Step, id: Uuid)
    requires Consistent(s) && PublishedOnceAt(s, id) && step.StepEnqueue? && Enabled(s, step)
    ensures PublishedOnceAt(Next(s, step), id)
  {
    UpsertDeliveriesAdds(s, step.notification, step.targets, step.ids);
  }

  lemma EndPublishedOnceAt(s: Sys, worker: Uuid, ok: bool, id: Uuid)
    requires PublishedOnceAt(s, id) && Enabled(s, StepEnd(worker, ok))
    ensures PublishedOnceAt(Next(s, StepEnd(worker, ok)), id)
  {
    PublicationsAppend(s.history, Ended(s.attempts[worker].delivery, ok, s.now), id);
  }

  lemma OtherPublishedOnceAt(s: Sys, step: Step, id: Uuid)
    requires PublishedOnceAt(s, id) && Enabled(s, step)
    requires !step.StepEnqueue? && !step.StepRecord? && !step.StepEnd?
    ensures PublishedOnceAt(Next(s, step), id)
  {
  }

  lemma StepPublishedOnceAt(s: Sys, step: Step, id: Uuid)
    requires Consistent(s) && AttemptsKnown(s) && Leases(s) && PublishedOnceAt(s, id)
    requires Enabled(s, step) && Tame(s, step)
    ensures PublishedOnceAt(Next(s, step), id)
  {
    match step
    case StepEnqueue(_, _, _) => EnqueuePublishedOnceAt(s, step, id);
    case StepRecord(worker) => RecordPublishedOnceAt(s, worker, id);
    case StepEnd(worker, ok) => EndPublishedOnceAt(s, worker, ok, id);
    case _ => OtherPublishedOnceAt(s, step, id);
  }

  lemma StepPublishedOnce(s: Sys, step: Step)
    requires Consistent(s) && AttemptsKnown(s) && Leases(s) && PublishedOnce(s)
    requires Enabled(s, step) && Tame(s, step)
    ensures PublishedOnce(Next(s, step))
  {
    forall id ensures PublishedOnceAt(Next(s, step), id) {
      assert PublishedOnceAt(s, id);
      StepPublishedOnceAt(s, step, id);
    }
  }

  lemma TameStepSafe(s: Sys, step: Step)
    requires Safe(s) && Enabled(s, step) && Tame(s, step)
    ensures Safe(Next(s, step))
  {
    StepConsistent(s, step);
    StepAttemptsKnown(s, step);
    StepVerdictsKnown(s, step);
    StepLeases(s, step);
    StepPublishedOnce(s, step);
  }

  /** In a safe state an outcome written within its lease is harmless. */
  lemma TimelyIsTame(s: Sys, step: Step)
    requires Safe(s) && Enabled(s, step) && Timely(s, step)
    ensures Tame(s, step)
  {
    if step.StepRecord? {
      assert HoldsRow(s, s.attempts[step.worker]);
    }
  }

  lemma StepSafe(s: Sys, step: Step)
    requires Safe(s) && Enabled(s, step) && Timely(s, step)
    ensures Safe(Next(s, step))
  {
    TimelyIsTame(s, step);
    TameStepSafe(s, step);
  }

  lemma {:induction false} RunSafe(s: Sys, steps: seq<Step>)
    requires Safe(s) && IsTimelyRun(s, steps)
    ensures IsRun(s, steps) && Safe(After(s, steps))
    decreases |steps|
  {
    if steps != [] {
      StepSafe(s, steps[0]);
      RunSafe(Next(s, steps[0]), steps[1..]);
    }
  }

  /** How often something was recorded published for one subscriber under one project and notification id. */
  function PublicationsFor(s: Sys, history: seq<Event>, project: Uuid, notificationId: string, subscriber: Uuid): nat {
    if history == [] then
      0
    else
      var e := history[|history| - 1];
      PublicationsFor(s, history[..|history| - 1], project, notificationId, subscriber) +
      if e.Recorded? && e.status == Published && IsFor(s, e.delivery, project, notificationId, subscriber)
      then 1 else 0
  }

  predicate IsFor(s: Sys, delivery: Uuid, project: Uuid, notificationId: string, subscriber: Uuid) {
    && delivery in s.origin && s.origin[delivery].1 == subscriber
    && IsNotification(s, project, notificationId, s.origin[delivery].0)
  }

  lemma {:induction false} PublicationsOfOneRow(
      s: Sys, history: seq<Event>, project: Uuid, notificationId: string, subscriber: Uuid, id: Uuid)
    requires Consistent(s) && IsFor(s, id, project, notificationId, subscriber)
    ensures PublicationsFor(s, history, project, notificationId, subscriber) == Publications(history, id)
  {
    if history != [] {
      PublicationsOfOneRow(s, history[..|history| - 1], project, notificationId, subscriber, id);
      var e := history[|history| - 1];
      assert IsFor(s, e.delivery, project, notificationId, subscriber) ==>
        s.origin[e.delivery] == s.origin[id];
    }
  }

  lemma {:induction false} PublicationsOfNoRow(
      s: Sys, history: seq<Event>, project: Uuid, notificationId: string, subscriber: Uuid)
    requires forall id :: !IsFor(s, id, project, notificationId, subscriber)
    ensures PublicationsFor(s, history, project, notificationId, subscriber) == 0
  {
    if history != [] {
      PublicationsOfNoRow(s, history[..|history| - 1], project, notificationId, subscriber);
    }
  }

  /**
   Lease safety. In every interleaving of picks, outcomes, crashes, sweeps, subscriptions and repeated
   notify calls in which outcomes are written within the lease: two attempts whose leases have not run out
   never share a row, each of them still holds its row, and for each project, notification id and subscriber
   at most one publication is ever recorded.
   */
  lemma LeaseSafety(now: int, steps: seq<Step>, project: Uuid, notificationId: string, subscriber: Uuid)
    requires IsTimelyRun(Initial(now), steps)
    ensures IsRun(Initial(now), steps)
    ensures
      var s := After(Initial(now), steps);
      && (forall w :: w in s.attempts && Fresh(s, s.attempts[w]) ==> HoldsRow(s, s.attempts[w]))
      && (forall v, w ::
            v in s.attempts && w in s.attempts && v != w && Fresh(s, s.attempts[v]) && Fresh(s, s.attempts[w]) ==>
            s.attempts[v].delivery != s.attempts[w].delivery)
      && PublicationsFor(s, s.history, project, notificationId, subscriber) <= 1
  {
    InitialSafe(now);
    RunSafe(Initial(now), steps);
    SafeMeans(After(Initial(now), steps), project, notificationId, subscriber);
  }

  /** What a safe state means to the outside. */
  lemma SafeMeans(s: Sys, project: Uuid, notificationId: string, subscriber: Uuid)
    requires Safe(s)
    ensures forall w :: w in s.attempts && Fresh(s, s.attempts[w]) ==> HoldsRow(s, s.attempts[w])
    ensures forall v, w ::
      v in s.attempts && w in s.attempts && v != w && Fresh(s, s.attempts[v]) && Fresh(s, s.attempts[w]) ==>
      s.attempts[v].delivery != s.attempts[w].delivery
    ensures PublicationsFor(s, s.history, project, notificationId, subscriber) <= 1
  {
    if id :| IsFor(s, id, project, notificationId, subscriber) {
      PublicationsOfOneRow(s, s.history, project, notificationId, subscriber, id);
      assert PublishedOnceAt(s, id);
    } else {
      PublicationsOfNoRow(s, s.history, project, notificationId, subscriber);
    }
  }

  /** A write on a failed row says failed again. */
  predicate KeepsFailed(s: Sys, step: Step) {
    step.StepRecord? && step.worker in s.attempts && s.attempts[step.worker].delivery in s.deliveries &&
    s.deliveries[s.attempts[step.worker].delivery].status == Failed ==>
      s.attempts[step.worker].verdict == Some(Failed)
  }

  /** No write does harm, and none overwrites a failure. */
  predicate Clean(s: Sys, step: Step) {
    Tame(s, step) && KeepsFailed(s, step)
  }

  lemma TimelyIsClean(s: Sys, step: Step)
    requires Safe(s) && Enabled(s, step) && Timely(s, step)
    ensures Clean(s, step)
  {
    TimelyIsTame(s, step);
    if step.StepRecord? {
      assert HoldsRow(s, s.attempts[step.worker]);
    }
  }

  lemma StepKeepsTerminal(s: Sys, step: Step, id: Uuid)
    requires Safe(s) && Enabled(s, step) && Clean(s, step)
    requires id in s.origin && (id in s.deliveries ==> s.deliveries[id].status.Terminal())
    ensures id in Next(s, step).origin
    ensures id in Next(s, step).deliveries ==>
      id in s.deliveries && Next(s, step).deliveries[id].status == s.deliveries[id].status
  {
    if step.StepEnqueue? {
      UpsertDeliveriesAdds(s, step.notification, step.targets, step.ids);
    } else if step.StepRecord? {
      RecordKeepsTerminal(s, step.worker, id);
    }
  }

  lemma RecordKeepsTerminal(s: Sys, worker: Uuid, id: Uuid)
    requires Enabled(s, StepRecord(worker)) && Clean(s, StepRecord(worker))
    requires id in s.deliveries ==> s.deliveries[id].status.Terminal()
    ensures
      var next := Next(s, StepRecord(worker));
      && (id in next.deliveries <==> id in s.deliveries) && next.origin == s.origin
      && (id in s.deliveries ==> next.deliveries[id].status == s.deliveries[id].status)
  {
  }

  /** A published or failed row keeps that status for as long as it exists, over the rest of any timely run. */
  lemma {:induction false} TerminalIsFinal(s: Sys, steps: seq<Step>, id: Uuid)
    requires Safe(s) && IsTimelyRun(s, steps)
    requires id in s.origin && (id in s.deliveries ==> s.deliveries[id].status.Terminal())
    ensures IsRun(s, steps)
    ensures id in After(s, steps).deliveries ==>
      id in s.deliveries && After(s, steps).deliveries[id].status == s.deliveries[id].status
    decreases |steps|
  {
    if steps != [] {
      TimelyIsClean(s, steps[0]);
      StepKeepsTerminal(s, steps[0], id);
      StepSafe(s, steps[0]);
      TerminalIsFinal(Next(s, steps[0]), steps[1..], id);
    }
  }

  // ----- Stale outcomes -----

  /**
   Which stale outcomes break a lease. In a safe state the write of an attempt whose lease has run out keeps
   all leases if and only if its row is gone or no unexpired attempt is on it.
   */
  lemma StaleOutcomeBreaksLeaseExactly(s: Sys, worker: Uuid)
    requires Safe(s) && Enabled(s, StepRecord(worker)) && !Fresh(s, s.attempts[worker])
    ensures
      var a := s.attempts[worker];
      Leases(Next(s, StepRecord(worker))) <==>
        (a.delivery !in s.deliveries ||
         forall v :: v in s.attempts && Fresh(s, s.attempts[v]) ==> s.attempts[v].delivery != a.delivery)
  {
    var a := s.attempts[worker];
    if v :| v in s.attempts && Fresh(s, s.attempts[v]) && s.attempts[v].delivery == a.delivery {
      SharedRowLosesLease(s, worker, v);
    } else {
      UnsharedRowKeepsLeases(s, worker);
    }
    if a.delivery !in s.deliveries {
      UnsharedRowKeepsLeases(s, worker);
    }
  }

  lemma UnsharedRowKeepsLeases(s: Sys, worker: Uuid)
    requires Leases(s) && Enabled(s, StepRecord(worker))
    requires s.attempts[worker].delivery !in s.deliveries ||
             forall v :: v in s.attempts && v != worker && Fresh(s, s.attempts[v]) ==>
               s.attempts[v].delivery != s.attempts[worker].delivery
    ensures Leases(Next(s, StepRecord(worker)))
  {
    var next := Next(s, StepRecord(worker));
    forall w | w in next.attempts && Fresh(next, next.attempts[w])
      ensures HoldsRow(next, next.attempts[w])
    {
      assert HoldsRow(s, s.attempts[w]);
    }
  }

  lemma SharedRowLosesLease(s: Sys, worker: Uuid, v: Uuid)
    requires Safe(s) && Enabled(s, StepRecord(worker)) && v in s.attempts && v != worker
    requires Fresh(s, s.attempts[v]) && s.attempts[v].delivery == s.attempts[worker].delivery
    ensures s.attempts[v].delivery in s.deliveries ==> !Leases(Next(s, StepRecord(worker)))
    ensures s.attempts[v].delivery !in s.deliveries ==> Next(s, StepRecord(worker)).deliveries == s.deliveries
  {
    var next := Next(s, StepRecord(worker));
    assert v in next.attempts && Fresh(next, next.attempts[v]);
    assert s.attempts[v].delivery in s.deliveries ==> !HoldsRow(next, next.attempts[v]);
  }

  lemma OverwriteCounts(s: Sys, worker: Uuid)
    requires PublishedOnce(s) && Enabled(s, StepRecord(worker)) && s.attempts[worker].delivery in s.deliveries
    requires s.deliveries[s.attempts[worker].delivery].status == Published
    ensures
      var a := s.attempts[worker];
      Publications(Next(s, StepRecord(worker)).history, a.delivery) == if a.verdict == Some(Published) then 2 else 1
  {
    var a := s.attempts[worker];
    assert PublishedOnceAt(s, a.delivery);
    PublicationsAppend(s.history, Recorded(a.delivery, a.verdict.value, s.now), a.delivery);
  }

  /** A write over a published row breaks the count of its publications: there are two, or the row forgets its one. */
  lemma OverwriteLosesCount(s: Sys, worker: Uuid)
    requires PublishedOnce(s) && Enabled(s, StepRecord(worker)) && s.attempts[worker].delivery in s.deliveries
    requires s.deliveries[s.attempts[worker].delivery].status == Published
    ensures !PublishedOnceAt(Next(s, StepRecord(worker)), s.attempts[worker].delivery)
  {
    OverwriteCounts(s, worker);
  }

  lemma CountKept(s: Sys, worker: Uuid)
    requires AttemptsKnown(s) && PublishedOnce(s) && Enabled(s, StepRecord(worker))
    requires s.attempts[worker].delivery in s.deliveries ==>
      s.deliveries[s.attempts[worker].delivery].status != Published
    ensures PublishedOnce(Next(s, StepRecord(worker)))
  {
    forall id ensures PublishedOnceAt(Next(s, StepRecord(worker)), id) {
      assert PublishedOnceAt(s, id);
      RecordPublishedOnceAt(s, worker, id);
    }
  }

  /**
   Which writes do harm, late or not. In a safe state the rows keep counting their publications if and only if the
   row written is gone or not published, and everything stays safe if and only if the write is harmless.
   */
  lemma RecordSafeExactly(s: Sys, worker: Uuid)
    requires Safe(s) && Enabled(s, StepRecord(worker))
    ensures
      var id := s.attempts[worker].delivery;
      PublishedOnce(Next(s, StepRecord(worker))) <==>
        (id !in s.deliveries || s.deliveries[id].status != Published)
    ensures Safe(Next(s, StepRecord(worker))) <==> Harmless(s, worker)
  {
    var id := s.attempts[worker].delivery;
    if id in s.deliveries && s.deliveries[id].status == Published {
      OverwriteLosesCount(s, worker);
    } else {
      CountKept(s, worker);
    }
    if Harmless(s, worker) {
      TameStepSafe(s, StepRecord(worker));
    } else if v :| v in s.attempts && v != worker && Fresh(s, s.attempts[v]) && s.attempts[v].delivery == id {
      SharedRowLosesLease(s, worker, v);
    }
  }

  // ----- Which runs are safe -----

  predicate IsHarmlessRun(s: Sys, steps: seq<Step>)
    requires IsRun(s, steps)
    decreases |steps|
  {
    steps != [] ==> Tame(s, steps[0]) && IsHarmlessRun(Next(s, steps[0]), steps[1..])
  }

  predicate IsCleanRun(s: Sys, steps: seq<Step>)
    requires IsRun(s, steps)
    decreases |steps|
  {
    steps != [] ==> Clean(s, steps[0]) && IsCleanRun(Next(s, steps[0]), steps[1..])
  }

  ghost predicate SafeThroughout(s: Sys, steps: seq<Step>)
    requires IsRun(s, steps)
    decreases |steps|
  {
    Safe(s) && (steps != [] ==> SafeThroughout(Next(s, steps[0]), steps[1..]))
  }

  /** No step changes the status of a published or failed row. */
  ghost predicate TerminalsKept(s: Sys, next: Sys) {
    forall id :: id in s.deliveries && id in next.deliveries && s.deliveries[id].status.Terminal() ==>
      next.deliveries[id].status == s.deliveries[id].status
  }

  ghost predicate FinalThroughout(s: Sys, steps: seq<Step>)
    requires IsRun(s, steps)
    decreases |steps|
  {
    steps != [] ==> TerminalsKept(s, Next(s, steps[0])) && FinalThroughout(Next(s, steps[0]), steps[1..])
  }

  lemma StepSafeExactly(s: Sys, step: Step)
    requires Safe(s) && Enabled(s, step)
    ensures Safe(Next(s, step)) <==> Tame(s, step)
  {
    if step.StepRecord? {
      RecordSafeExactly(s, step.worker);
    } else {
      TameStepSafe(s, step);
    }
  }

  lemma StepFinalExactly(s: Sys, step: Step)
    requires Safe(s) && Enabled(s, step) && Tame(s, step)
    ensures TerminalsKept(s, Next(s, step)) <==> KeepsFailed(s, step)
  {
    if KeepsFailed(s, step) {
      forall id | id in s.deliveries && id in Next(s, step).deliveries && s.deliveries[id].status.Terminal()
        ensures Next(s, step).deliveries[id].status == s.deliveries[id].status
      {
        assert id in s.origin;
        StepKeepsTerminal(s, step, id);
      }
    } else {
      var id := s.attempts[step.worker].delivery;
      assert id in Next(s, step).deliveries;
    }
  }

  /**
   Exactly the safe runs: a run from the empty system is safe in all its states if and only if each of its writes is
   harmless. In particular the first write that is not harmless leaves an unsafe state.
   */
  lemma RunSafeExactly(now: int, steps: seq<Step>)
    requires IsRun(Initial(now), steps)
    ensures SafeThroughout(Initial(now), steps) <==> IsHarmlessRun(Initial(now), steps)
  {
    InitialSafe(now);
    SafeExactlyHarmless(Initial(now), steps);
  }

  lemma {:induction false} SafeExactlyHarmless(s: Sys, steps: seq<Step>)
    requires Safe(s) && IsRun(s, steps)
    ensures SafeThroughout(s, steps) <==> IsHarmlessRun(s, steps)
    decreases |steps|
  {
    if steps != [] {
      StepSafeExactly(s, steps[0]);
      if Tame(s, steps[0]) {
        SafeExactlyHarmless(Next(s, steps[0]), steps[1..]);
      }
    }
  }

  /** And published and failed rows stay so as well if and only if, besides, no write overwrites a failure. */
  lemma {:induction false} RunFinalExactly(s: Sys, steps: seq<Step>)
    requires Safe(s) && IsRun(s, steps)
    ensures SafeThroughout(s, steps) && FinalThroughout(s, steps) <==> IsCleanRun(s, steps)
    decreases |steps|
  {
    if steps != [] {
      StepSafeExactly(s, steps[0]);
      if Tame(s, steps[0]) {
        StepFinalExactly(s, steps[0]);
        RunFinalExactly(Next(s, steps[0]), steps[1..]);
      }
    }
  }

  // ----- What a harmful write leads to -----

  lemma Prepend(s: Sys, step: Step, next: Sys, steps: seq<Step>) returns (longer: seq<Step>)
    requires Enabled(s, step) && Next(s, step) == next && IsRun(next, steps)
    ensures longer == [step] + steps && IsRun(s, longer) && After(s, longer) == After(next, steps)
    ensures Timely(s, step) && IsTimelyRun(next, steps) ==> IsTimelyRun(s, longer)
  {
    longer := [step] + steps;
    assert longer[1..] == steps;
  }

  /**
   What a write over a published row leads to, in every safe state: a success is recorded a second time at once; a row
   put back into the queue can be picked and published again within a lease; a failure replaces the publication.
   */
  lemma OverwritePublishesAgain(s: Sys, worker: Uuid) returns (steps: seq<Step>)
    requires Safe(s) && Enabled(s, StepRecord(worker)) && s.attempts[worker].delivery in s.deliveries
    requires s.deliveries[s.attempts[worker].delivery].status == Published
    ensures IsRun(s, steps) && steps != [] && steps[0] == StepRecord(worker)
    ensures IsTimelyRun(Next(s, steps[0]), steps[1..])
    ensures
      var a := s.attempts[worker];
      if a.verdict == Some(Failed) then
        |steps| == 1 && a.delivery in After(s, steps).deliveries &&
        After(s, steps).deliveries[a.delivery].status == Failed
      else
        Publications(After(s, steps).history, a.delivery) == 2
  {
    var a := s.attempts[worker];
    var id := a.delivery;
    var t := Next(s, StepRecord(worker));
    OverwriteCounts(s, worker);
    var again := [];
    if a.verdict == Some(Queued) {
      StepConsistent(s, StepRecord(worker));
      again := PublishOnceMore(t, worker, id);
    }
    steps := Prepend(s, StepRecord(worker), t, again);
    assert steps[1..] == again;
  }

  /** A queued row can be picked and published by a free worker. */
  lemma PublishOnceMore(s: Sys, worker: Uuid, id: Uuid) returns (steps: seq<Step>)
    requires Consistent(s) && worker !in s.attempts && id in s.deliveries && s.deliveries[id].status == Queued
    ensures IsRun(s, steps) && IsTimelyRun(s, steps)
    ensures Publications(After(s, steps).history, id) == Publications(s.history, id) + 1
  {
    assert s.origin[id] == (s.deliveries[id].notification, s.deliveries[id].subscriber);
    var picked := Next(s, StepPick(worker, id));
    var ended := Next(picked, StepEnd(worker, true));
    var recorded := Next(ended, StepRecord(worker));
    PublicationsAppend(s.history, Ended(id, true, s.now), id);
    PublicationsAppend(ended.history, Recorded(id, Published, s.now), id);
    steps := Prepend(ended, StepRecord(worker), recorded, []);
    steps := Prepend(picked, StepEnd(worker, true), ended, steps);
    steps := Prepend(s, StepPick(worker, id), picked, steps);
  }

  const LATE_CONTENT := Content(3, "title", "body", None, None)

  /** The one row of the run below, which is about notification 10 and subscriber 5. */
  function LateState(status: Status, updatedAt: int, now: int, attempts: map<Uuid, Attempt>, history: seq<Event>): Sys {
    Sys(map[10 := Notification(1, "n", LATE_CONTENT, 0)], map[100 := Delivery(10, 5, status, 0, updatedAt)],
        {5}, now, attempts, map[100 := (10, 5)], {}, history)
  }

  const LATE := PUBLISHING_TIMEOUT + 1

  const LATE_ATTEMPT := map[1 := Attempt(100, 0, 0, None)]

  /** Worker 1 picks the row and runs into its timeout. */
  lemma PickedByFirst() returns (steps: seq<Step>)
    ensures IsRun(Initial(0), steps) && IsTimelyRun(Initial(0), steps)
    ensures After(Initial(0), steps) == LateState(Processing, 0, LATE, LATE_ATTEMPT, [])
  {
    var s1 := Initial(0).(subscribers := {5});
    var s2 := s1.(notifications := map[10 := Notification(1, "n", LATE_CONTENT, 0)]);
    var s3 := LateState(Queued, 0, 0, map[], []);
    var s4 := LateState(Processing, 0, 0, LATE_ATTEMPT, []);
    var s5 := LateState(Processing, 0, LATE, LATE_ATTEMPT, []);
    assert UpsertDelivery(s2, 10, 5, 100) == s3;
    assert UpsertDeliveries(s3, 10, [5][1..], [100][1..]) == s3;
    steps := Prepend(s4, StepPass(LATE), s5, []);
    steps := Prepend(s3, StepPick(1, 100), s4, steps);
    steps := Prepend(s2, StepEnqueue(10, [5], [100]), s3, steps);
    steps := Prepend(s1, StepNotify(1, "n", LATE_CONTENT, 10), s2, steps);
    steps := Prepend(Initial(0), StepSubscribe(5), s1, steps);
  }

  /** The row is swept, and worker 2 picks and publishes it. */
  lemma PublishedBySecond() returns (steps: seq<Step>)
    ensures IsRun(LateState(Processing, 0, LATE, LATE_ATTEMPT, []), steps)
    ensures IsTimelyRun(LateState(Processing, 0, LATE, LATE_ATTEMPT, []), steps)
    ensures After(LateState(Processing, 0, LATE, LATE_ATTEMPT, []), steps)
         == LateState(Published, LATE, LATE, LATE_ATTEMPT, LATE_HISTORY)
  {
    var s5 := LateState(Processing, 0, LATE, LATE_ATTEMPT, []);
    var s6 := LateState(Queued, 0, LATE, LATE_ATTEMPT, []);
    steps := PicksAgain();
    steps := Prepend(s5, StepSweep(1), s6, steps);
  }

  /** Worker 2 picks the row and publishes it. */
  lemma PicksAgain() returns (steps: seq<Step>)
    ensures
      var s := LateState(Queued, 0, LATE, LATE_ATTEMPT, []);
      && IsRun(s, steps) && IsTimelyRun(s, steps)
      && After(s, steps) == LateState(Published, LATE, LATE, LATE_ATTEMPT, LATE_HISTORY)
  {
    var s6 := LateState(Queued, 0, LATE, LATE_ATTEMPT, []);
    var s7 := LateState(Processing, LATE, LATE, LATE_ATTEMPT[2 := Attempt(100, 0, LATE, None)], []);
    steps := EndsWell();
    steps := Prepend(s6, StepPick(2, 100), s7, steps);
  }

  const LATE_HISTORY := [Ended(100, true, LATE), Recorded(100, Published, LATE)]

  /** Worker 2 ends its attempt on the row and records it. */
  lemma EndsWell() returns (steps: seq<Step>)
    ensures
      var s := LateState(Processing, LATE, LATE, LATE_ATTEMPT[2 := Attempt(100, 0, LATE, None)], []);
      && IsRun(s, steps) && IsTimelyRun(s, steps)
      && After(s, steps) == LateState(Published, LATE, LATE, LATE_ATTEMPT, LATE_HISTORY)
  {
    var s7 := LateState(Processing, LATE, LATE, LATE_ATTEMPT[2 := Attempt(100, 0, LATE, None)], []);
    var s8 := LateState(Processing, LATE, LATE, LATE_ATTEMPT[2 := Attempt(100, 0, LATE, Some(Published))],
                        [Ended(100, true, LATE)]);
    assert LATE_ATTEMPT[2 := Attempt(100, 0, LATE, Some(Published))] - {2} == LATE_ATTEMPT;
    steps := Prepend(s8, StepRecord(2), LateState(Published, LATE, LATE, LATE_ATTEMPT, LATE_HISTORY), []);
    steps := Prepend(s7, StepEnd(2, true), s8, steps);
  }

  lemma {:induction false} RunThenRun(s: Sys, first: seq<Step>, second: seq<Step>)
    requires IsRun(s, first) && IsRun(After(s, first), second)
    ensures IsRun(s, first + second) && After(s, first + second) == After(After(s, first), second)
    ensures IsTimelyRun(s, first + second) <==> IsTimelyRun(s, first) && IsTimelyRun(After(s, first), second)
    decreases |first|
  {
    if first == [] {
      assert first + second == second;
    } else {
      assert (first + second)[1..] == first[1..] + second;
      RunThenRun(Next(s, first[0]), first[1..], second);
    }
  }

  /**
   Without the lease hypothesis safety fails. Worker 1 picks a row and is still at it when its lease has run out;
   worker 2 picks and publishes the row in time. Then worker 1 writes, and whether it failed, as in a timeout, or
   succeeded: the row is recorded published twice.
   */
  lemma LateOutcomePublishesTwice(ok: bool) returns (steps: seq<Step>)
    ensures IsRun(Initial(0), steps) && !IsTimelyRun(Initial(0), steps) && !IsHarmlessRun(Initial(0), steps)
    ensures Publications(After(Initial(0), steps).history, 100) == 2
  {
    var first := PickedByFirst();
    var second := PublishedBySecond();
    RunThenRun(Initial(0), first, second);
    var third := EndsLate(ok);
    var lead := first + second;
    RunThenRun(Initial(0), lead, third);
    lead := lead + third;
    InitialSafe(0);
    RunSafe(Initial(0), lead);
    var s := After(Initial(0), lead);
    var last := OverwritePublishesAgain(s, 1);
    RunThenRun(Initial(0), lead, last);
    assert !IsTimelyRun(s, last) && !Tame(s, last[0]);
    steps := lead + last;
    HarmfulEnd(Initial(0), lead, last);
  }

  /** Worker 1 learns its outcome. */
  lemma EndsLate(ok: bool) returns (steps: seq<Step>)
    ensures
      var s := LateState(Published, LATE, LATE, LATE_ATTEMPT, LATE_HISTORY);
      && IsRun(s, steps) && IsTimelyRun(s, steps)
      && After(s, steps) == LateState(Published, LATE, LATE,
           map[1 := Attempt(100, 0, 0, Some(if ok then Published else Queued))],
           LATE_HISTORY + [Ended(100, ok, LATE)])
  {
    var s := LateState(Published, LATE, LATE, LATE_ATTEMPT, LATE_HISTORY);
    var t := Next(s, StepEnd(1, ok));
    assert t.attempts == map[1 := Attempt(100, 0, 0, Some(if ok then Published else Queued))];
    steps := Prepend(s, StepEnd(1, ok), t, []);
  }

  lemma {:induction false} HarmfulEnd(s: Sys, lead: seq<Step>, last: seq<Step>)
    requires IsRun(s, lead) && IsRun(After(s, lead), last) && IsRun(s, lead + last)
    requires last != [] && !Tame(After(s, lead), last[0])
    ensures !IsHarmlessRun(s, lead + last)
    decreases |lead|
  {
    if lead == [] {
      assert lead + last == last;
    } else {
      assert (lead + last)[1..] == lead[1..] + last;
      RunThenRun(Next(s, lead[0]), lead[1..], last);
      HarmfulEnd(Next(s, lead[0]), lead[1..], last);
    }
  }

  // ----- What holds even with stale outcomes -----

  ghost predicate Succeeded(history: seq<Event>, id: Uuid) {
    exists i :: 0 <= i < |history| && history[i].Ended? && history[i].delivery == id && history[i].ok
  }

  ghost predicate GaveUp(history: seq<Event>, id: Uuid, notificationCreatedAt: int) {
    exists i :: 0 <= i < |history| && history[i].Ended? && history[i].delivery == id && !history[i].ok &&
                GiveUp(notificationCreatedAt, history[i].at)
  }

  ghost predicate Backed(history: seq<Event>, id: Uuid, notificationCreatedAt: int, status: Status) {
    && (status == Published ==> Succeeded(history, id))
    && (status == Failed ==> GaveUp(history, id, notificationCreatedAt))
  }

  /** Every terminal status, written or about to be written, is backed by an attempt that ended that way. */
  ghost predicate Evidenced(s: Sys) {
    && (forall w :: w in s.attempts && s.attempts[w].verdict.Some? ==>
          Backed(s.history, s.attempts[w].delivery, s.attempts[w].notificationCreatedAt, s.attempts[w].verdict.value))
    && (forall id :: id in s.deliveries ==>
          && s.deliveries[id].notification in s.notifications
          && Backed(s.history, id, s.notifications[s.deliveries[id].notification].createdAt, s.deliveries[id].status))
  }

  lemma BackingGrows(history: seq<Event>, e: Event, id: Uuid, created: int, status: Status)
    requires Backed(history, id, created, status)
    ensures Backed(history + [e], id, created, status)
  {
    var longer := history + [e];
    assert forall i :: 0 <= i < |history| ==> longer[i] == history[i];
  }

  lemma EndingBacks(history: seq<Event>, a: Attempt, ok: bool, now: int)
    ensures Backed(history + [Ended(a.delivery, ok, now)], a.delivery, a.notificationCreatedAt, Verdict(a, ok, now))
  {
    assert (history + [Ended(a.delivery, ok, now)])[|history|] == Ended(a.delivery, ok, now);
  }

  lemma AttemptEvidenced(s: Sys, step: Step, w: Uuid)
    requires Consistent(s) && AttemptsKnown(s) && Evidenced(s) && (step.StepEnd? || step.StepRecord?)
    requires Enabled(s, step) && w in Next(s, step).attempts && Next(s, step).attempts[w].verdict.Some?
    ensures
      var a := Next(s, step).attempts[w];
      Backed(Next(s, step).history, a.delivery, a.notificationCreatedAt, a.verdict.value)
  {
    var next := Next(s, step);
    var a := next.attempts[w];
    if step.StepEnd? && step.worker == w {
      EndingBacks(s.history, s.attempts[w], step.ok, s.now);
    } else if next.history != s.history {
      BackingGrows(s.history, next.history[|s.history|], a.delivery, a.notificationCreatedAt, a.verdict.value);
    }
  }

  lemma RowEvidenced(s: Sys, step: Step, id: Uuid)
    requires Consistent(s) && AttemptsKnown(s) && Evidenced(s) && (step.StepEnd? || step.StepRecord?)
    requires Enabled(s, step) && id in Next(s, step).deliveries
    ensures
      var row := Next(s, step).deliveries[id];
      && row.notification in s.notifications
      && Backed(Next(s, step).history, id, s.notifications[row.notification].createdAt, row.status)
  {
    var next := Next(s, step);
    if next.history != s.history {
      var row := next.deliveries[id];
      assert s.origin[id] == (s.deliveries[id].notification, s.deliveries[id].subscriber);
      BackingGrows(s.history, next.history[|s.history|], id, s.notifications[row.notification].createdAt, row.status);
    }
  }

  lemma OutcomeEvidenced(s: Sys, step: Step)
    requires Consistent(s) && AttemptsKnown(s) && Evidenced(s) && Enabled(s, step)
    requires step.StepEnd? || step.StepRecord?
    ensures Evidenced(Next(s, step))
  {
    var next := Next(s, step);
    forall w | w in next.attempts && next.attempts[w].verdict.Some?
      ensures Backed(next.history, next.attempts[w].delivery, next.attempts[w].notificationCreatedAt,
                     next.attempts[w].verdict.value)
    {
      AttemptEvidenced(s, step, w);
    }
    forall id | id in next.deliveries
      ensures && next.deliveries[id].notification in s.notifications
              && Backed(next.history, id, s.notifications[next.deliveries[id].notification].createdAt,
                        next.deliveries[id].status)
    {
      RowEvidenced(s, step, id);
    }
  }

  lemma EnqueueEvidenced(s: Sys, step: Step)
    requires Consistent(s) && Evidenced(s) && step.StepEnqueue? && Enabled(s, step)
    ensures Evidenced(Next(s, step))
  {
    UpsertDeliveriesAdds(s, step.notification, step.targets, step.ids);
    AddedEvidenced(s, Next(s, step), step.notification, step.targets, step.ids);
  }

  lemma AddedEvidenced(s: Sys, next: Sys, notification: Uuid, targets: seq<Uuid>, ids: seq<Uuid>)
    requires Evidenced(s) && OnlyAdds(s, next, notification, targets, ids) && notification in s.notifications
    ensures Evidenced(next)
  {
    forall id | id in next.deliveries
      ensures && next.deliveries[id].notification in next.notifications
              && Backed(next.history, id, next.notifications[next.deliveries[id].notification].createdAt,
                        next.deliveries[id].status)
    {
      assert id in s.deliveries ==> next.deliveries[id] == s.deliveries[id];
    }
  }

  lemma StepEvidenced(s: Sys, step: Step)
    requires Consistent(s) && AttemptsKnown(s) && Evidenced(s) && Enabled(s, step)
    ensures Evidenced(Next(s, step))
  {
    if step.StepEnd? || step.StepRecord? {
      OutcomeEvidenced(s, step);
    } else if step.StepEnqueue? {
      EnqueueEvidenced(s, step);
    } else {
      OtherEvidenced(s, step);
    }
  }

  /** The other steps write no terminal status and end no attempt. */
  lemma OtherEvidenced(s: Sys, step: Step)
    requires Consistent(s) && Evidenced(s) && Enabled(s, step)
    requires !step.StepEnd? && !step.StepRecord? && !step.StepEnqueue?
    ensures Evidenced(Next(s, step))
  {
    var next := Next(s, step);
    forall w | w in next.attempts && next.attempts[w].verdict.Some?
      ensures Backed(next.history, next.attempts[w].delivery, next.attempts[w].notificationCreatedAt,
                     next.attempts[w].verdict.value)
    {
      OtherAttempt(s, step, w);
    }
    forall id | id in next.deliveries
      ensures && next.deliveries[id].notification in next.notifications
              && Backed(next.history, id, next.notifications[next.deliveries[id].notification].createdAt,
                        next.deliveries[id].status)
    {
      OtherRow(s, step, id);
    }
  }

  lemma OtherAttempt(s: Sys, step: Step, w: Uuid)
    requires Enabled(s, step) && !step.StepEnd? && !step.StepRecord? && !step.StepEnqueue?
    requires w in Next(s, step).attempts && Next(s, step).attempts[w].verdict.Some?
    ensures w in s.attempts && Next(s, step).attempts[w] == s.attempts[w] && Next(s, step).history == s.history
  {
  }

  lemma OtherRow(s: Sys, step: Step, id: Uuid)
    requires Enabled(s, step) && !step.StepEnd? && !step.StepRecord? && !step.StepEnqueue?
    requires id in Next(s, step).deliveries
    ensures
      var next := Next(s, step);
      && id in s.deliveries && next.deliveries[id].notification == s.deliveries[id].notification
      && (next.deliveries[id].status.Terminal() ==> next.deliveries[id].status == s.deliveries[id].status)
      && next.history == s.history
      && (forall n :: n in s.notifications ==> n in next.notifications && next.notifications[n] == s.notifications[n])
  {
  }

  lemma {:induction false} RunEvidenced(s: Sys, steps: seq<Step>)
    requires Consistent(s) && AttemptsKnown(s) && Evidenced(s) && IsRun(s, steps)
    ensures Consistent(After(s, steps)) && AttemptsKnown(After(s, steps)) && Evidenced(After(s, steps))
    decreases |steps|
  {
    if steps != [] {
      StepEvidenced(s, steps[0]);
      StepAttemptsKnown(s, steps[0]);
      StepConsistent(s, steps[0]);
      RunEvidenced(Next(s, steps[0]), steps[1..]);
    }
  }

  /**
   Unconditional safety. In every interleaving, stale outcomes included: the table constraints hold, a
   published row had an attempt that ended well, and a failed row had an attempt that failed more than the
   give-up time after its notification was created.
   */
  lemma UnconditionalSafety(now: int, steps: seq<Step>, id: Uuid)
    requires IsRun(Initial(now), steps) && id in After(Initial(now), steps).deliveries
    ensures
      var s := After(Initial(now), steps);
      && Consistent(s)
      && s.deliveries[id].notification in s.notifications
      && (s.deliveries[id].status == Published ==> Succeeded(s.history, id))
      && (s.deliveries[id].status == Failed ==>
            GaveUp(s.history, id, s.notifications[s.deliveries[id].notification].createdAt))
  {
    RunEvidenced(Initial(now), steps);
  }

  /**
   A sweep at `T` requeues exactly the processing rows whose lease ran out before its cutoff, so no such row
   is left; it does not touch `updated_at` or any other row.
   */
  lemma SweepClears(s: Sys, cutoff: int, id: Uuid)
    requires Enabled(s, StepSweep(cutoff)) && id in s.deliveries
    ensures
      var next := Next(s, StepSweep(cutoff));
      && id in next.deliveries && next.deliveries[id].updatedAt == s.deliveries[id].updatedAt
      && (next.deliveries[id].status == Processing ==> cutoff <= next.deliveries[id].updatedAt)
      && (next.deliveries[id] != s.deliveries[id] <==>
            s.deliveries[id].status == Processing && s.deliveries[id].updatedAt < cutoff)
      && (next.deliveries[id] != s.deliveries[id] ==> next.deliveries[id].status == Queued)
  {
  }

  // ----- Enqueueing is idempotent -----

  lemma {:induction false} NotificationsStay(s: Sys, steps: seq<Step>, id: Uuid)
    requires Consistent(s) && IsRun(s, steps) && id in s.notifications
    ensures Consistent(After(s, steps))
    ensures id in After(s, steps).notifications && After(s, steps).notifications[id] == s.notifications[id]
    decreases |steps|
  {
    if steps != [] {
      StepMonotone(s, steps[0]);
      StepConsistent(s, steps[0]);
      NotificationsStay(Next(s, steps[0]), steps[1..], id);
    }
  }

  /**
   The first call wins. Once a notification is stored under (project, notification_id), then after any run a
   call with the same key and any content changes nothing and finds the one stored notification unchanged.
   */
  lemma NotifyIdempotent(s: Sys, steps: seq<Step>, project: Uuid, notificationId: string, id: Uuid,
                         again: Content, newId: Uuid)
    requires Consistent(s) && IsRun(s, steps) && IsNotification(s, project, notificationId, id)
    ensures
      var later := After(s, steps);
      && UpsertNotification(later, project, notificationId, again, newId) == later
      && IsNotification(later, project, notificationId, id)
      && later.notifications[id] == s.notifications[id]
      && forall other :: IsNotification(later, project, notificationId, other) ==> other == id
  {
    NotificationsStay(s, steps, id);
  }

  lemma StepKeepsDelivery(s: Sys, step: Step, notification: Uuid, target: Uuid)
    requires Consistent(s) && Enabled(s, step) && HasDelivery(s, notification, target)
    requires step != StepUnsubscribe(target)
    ensures HasDelivery(Next(s, step), notification, target)
  {
    var id :| id in s.deliveries &&
              s.deliveries[id].notification == notification && s.deliveries[id].subscriber == target;
    if IsPublisherStep(step) {
      PublisherKeepsRows(s, step);
    } else if step.StepEnqueue? {
      UpsertDeliveriesAdds(s, step.notification, step.targets, step.ids);
    } else {
      OthersKeepRow(s, step, id);
    }
    assert id in Next(s, step).deliveries;
  }

  lemma OthersKeepRow(s: Sys, step: Step, id: Uuid)
    requires Enabled(s, step) && !IsPublisherStep(step) && !step.StepEnqueue? && id in s.deliveries
    requires step != StepUnsubscribe(s.deliveries[id].subscriber)
    ensures id in Next(s, step).deliveries && Next(s, step).deliveries[id] == s.deliveries[id]
  {
  }

  lemma {:induction false} RunKeepsDelivery(s: Sys, steps: seq<Step>, notification: Uuid, target: Uuid)
    requires Consistent(s) && IsRun(s, steps) && HasDelivery(s, notification, target)
    requires StepUnsubscribe(target) !in steps
    ensures HasDelivery(After(s, steps), notification, target)
    decreases |steps|
  {
    if steps != [] {
      StepKeepsDelivery(s, steps[0], notification, target);
      StepConsistent(s, steps[0]);
      RunKeepsDelivery(Next(s, steps[0]), steps[1..], notification, target);
    }
  }

  lemma {:induction false} NothingToAdd(s: Sys, notification: Uuid, targets: seq<Uuid>, ids: seq<Uuid>)
    requires |targets| == |ids| && forall i :: 0 <= i < |targets| ==> HasDelivery(s, notification, targets[i])
    ensures UpsertDeliveries(s, notification, targets, ids) == s
    decreases |ids|
  {
    if ids != [] {
      NothingToAdd(s, notification, targets[1..], ids[1..]);
    }
  }

  /**
   Enqueueing the same targets again changes nothing, whatever publisher steps and other calls came in
   between: no second row, and no status is put back. Only a target that unsubscribed is enqueued anew.
   */
  lemma EnqueueIdempotent(s: Sys, steps: seq<Step>, notification: Uuid, targets: seq<Uuid>, ids: seq<Uuid>,
                          freshIds: seq<Uuid>)
    requires Consistent(s) && Enabled(s, StepEnqueue(notification, targets, ids))
    requires IsRun(Next(s, StepEnqueue(notification, targets, ids)), steps)
    requires forall i :: 0 <= i < |targets| ==> StepUnsubscribe(targets[i]) !in steps
    requires |freshIds| == |targets|
    ensures
      var later := After(Next(s, StepEnqueue(notification, targets, ids)), steps);
      UpsertDeliveries(later, notification, targets, freshIds) == later
  {
    var enqueued := Next(s, StepEnqueue(notification, targets, ids));
    UpsertDeliveriesAdds(s, notification, targets, ids);
    forall i | 0 <= i < |targets|
      ensures HasDelivery(After(enqueued, steps), notification, targets[i])
    {
      UpsertDeliveriesCovers(s, notification, targets, ids, i);
      RunKeepsDelivery(enqueued, steps, notification, targets[i]);
    }
    NothingToAdd(After(enqueued, steps), notification, targets, freshIds);
  }
}
