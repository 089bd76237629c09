/**
 How much work a queue holds: a measure that no publisher step increases and that every recorded outcome
 decreases, so that without new rows the workers come to an end however they are interleaved.
 */
module QueueWork {
  import opened Wrappers
  import opened Queue
  import opened LeaseProtocol

  // ----- Sums over a table -----

  ghost function Sum(weights: map<Uuid, nat>): nat
    decreases |weights|
  {
    if weights == map[] then
      0
    else
      assert exists k :: k in weights by {
        assert weights.Keys != {};
      }
      var k :| k in weights;
      assert (weights - {k}).Keys == weights.Keys - {k};
      weights[k] + Sum(weights - {k})
  }

  lemma {:induction false} SumRemove(weights: map<Uuid, nat>, k: Uuid)
    requires k in weights
    ensures Sum(weights) == weights[k] + Sum(weights - {k})
    decreases |weights|
  {
    assert weights != map[];
    var j :| j in weights && Sum(weights) == weights[j] + Sum(weights - {j});
    if j != k {
      assert (weights - {j}).Keys == weights.Keys - {j};
      SumRemove(weights - {j}, k);
      assert (weights - {k}).Keys == weights.Keys - {k};
      SumRemove(weights - {k}, j);
      assert weights - {j} - {k} == weights - {k} - {j};
    }
  }

  /** `after` has no more rows than `before`, and none of them weighs more. */
  ghost predicate NotHeavier(after: map<Uuid, nat>, before: map<Uuid, nat>) {
    forall k :: k in after ==> k in before && after[k] <= before[k]
  }

  lemma {:induction false} SumMonotone(after: map<Uuid, nat>, before: map<Uuid, nat>)
    requires NotHeavier(after, before)
    ensures Sum(after) <= Sum(before)
    decreases |before|
  {
    if before == map[] {
      assert after.Keys == {};
    } else {
      assert before.Keys != {};
      var k :| k in before;
      SumRemove(before, k);
      assert (before - {k}).Keys == before.Keys - {k};
      if k in after {
        SumRemove(after, k);
        SumMonotone(after - {k}, before - {k});
      } else {
        SumMonotone(after, before - {k});
      }
    }
  }

  lemma SumDecreases(after: map<Uuid, nat>, before: map<Uuid, nat>, k: Uuid)
    requires NotHeavier(after, before)
    requires k in before && (if k in after then after[k] < before[k] else 0 < before[k])
    ensures Sum(after) < Sum(before)
  {
    SumRemove(before, k);
    if k in after {
      SumRemove(after, k);
      SumMonotone(after - {k}, before - {k});
    } else {
      SumMonotone(after, before - {k});
    }
  }

  // ----- The work in a queue -----

  function Slack(deadline: int, at: int): nat {
    if at < deadline then deadline - at else 0
  }

  /** A row that is done weighs 1; any other weighs more, by the time left until it would be given up. */
  function RowWork(row: Delivery, notificationCreatedAt: int): nat {
    if row.status.Terminal() then
      1
    else
      2 + Slack(notificationCreatedAt + PUBLISHING_GIVE_UP_TIMEOUT + 1, row.updatedAt)
  }

  function Weights(s: Sys): map<Uuid, nat> {
    map id | id in s.deliveries && s.deliveries[id].notification in s.notifications ::
      RowWork(s.deliveries[id], s.notifications[s.deliveries[id].notification].createdAt)
  }

  ghost function Work(s: Sys): nat {
    Sum(Weights(s))
  }

  /** Rows are not stamped with the future. */
  ghost predicate RowsStamped(s: Sys) {
    forall id :: id in s.deliveries ==> s.deliveries[id].updatedAt <= s.now
  }

  /** An attempt that is to be requeued has taken time, and was not given up yet. */
  ghost predicate RequeuesStamped(s: Sys) {
    forall w :: w in s.attempts && s.attempts[w].verdict == Some(Queued) ==>
      && s.attempts[w].pickedAt < s.now
      && s.attempts[w].pickedAt <= s.attempts[w].notificationCreatedAt + PUBLISHING_GIVE_UP_TIMEOUT
  }

  ghost predicate Stamped(s: Sys) {
    RowsStamped(s) && RequeuesStamped(s)
  }

  /** A failed attempt takes time. */
  predicate TakesTime(s: Sys, step: Step) {
    step.StepEnd? && !step.ok && step.worker in s.attempts ==> s.attempts[step.worker].pickedAt < s.now
  }

  /** Steps that bring no new rows. */
  predicate AddsNoRows(step: Step) {
    !step.StepEnqueue?
  }

  lemma StepRowsStamped(s: Sys, step: Step)
    requires RowsStamped(s) && Enabled(s, step) && AddsNoRows(step)
    ensures RowsStamped(Next(s, step))
  {
  }

  lemma StepRequeuesStamped(s: Sys, step: Step)
    requires AttemptsKnown(s) && RequeuesStamped(s) && Enabled(s, step) && TakesTime(s, step) && AddsNoRows(step)
    ensures RequeuesStamped(Next(s, step))
  {
  }

  lemma StepStamped(s: Sys, step: Step)
    requires AttemptsKnown(s) && Stamped(s) && Enabled(s, step) && TakesTime(s, step) && AddsNoRows(step)
    ensures Stamped(Next(s, step))
  {
    StepRowsStamped(s, step);
    StepRequeuesStamped(s, step);
  }

  /** A row that is not finished by anyone else's step, and never made younger. */
  predicate NotRevived(after: Delivery, before: Delivery) {
    && after.notification == before.notification
    && before.updatedAt <= after.updatedAt
    && (before.status.Terminal() ==> after.status == before.status)
  }

  lemma RecordAges(s: Sys, worker: Uuid, id: Uuid)
    requires Safe(s) && Stamped(s) && Enabled(s, StepRecord(worker)) && Timely(s, StepRecord(worker))
    requires id in s.deliveries
    ensures NotRevived(Next(s, StepRecord(worker)).deliveries[id], s.deliveries[id])
  {
    assert HoldsRow(s, s.attempts[worker]);
  }

  lemma OtherAges(s: Sys, step: Step, id: Uuid)
    requires Stamped(s) && Enabled(s, step) && AddsNoRows(step) && !step.StepRecord?
    requires id in Next(s, step).deliveries
    ensures id in s.deliveries && NotRevived(Next(s, step).deliveries[id], s.deliveries[id])
  {
  }

  lemma OlderIsNotHeavier(after: Delivery, before: Delivery, notificationCreatedAt: int)
    requires NotRevived(after, before)
    ensures RowWork(after, notificationCreatedAt) <= RowWork(before, notificationCreatedAt)
  {
  }

  lemma RowNotHeavier(s: Sys, step: Step, id: Uuid)
    requires Safe(s) && Stamped(s) && Enabled(s, step) && Timely(s, step) && AddsNoRows(step)
    requires id in Next(s, step).deliveries
    ensures id in s.deliveries && NotRevived(Next(s, step).deliveries[id], s.deliveries[id])
  {
    if step.StepRecord? {
      RecordAges(s, step.worker, id);
    } else {
      OtherAges(s, step, id);
    }
  }

  lemma RowHasNotification(s: Sys, id: Uuid)
    requires Consistent(s) && id in s.deliveries
    ensures s.deliveries[id].notification in s.notifications && id in Weights(s)
  {
    assert s.origin[id] == (s.deliveries[id].notification, s.deliveries[id].subscriber);
  }

  lemma StepNotHeavier(s: Sys, step: Step)
    requires Safe(s) && Stamped(s) && Enabled(s, step) && Timely(s, step) && AddsNoRows(step)
    ensures NotHeavier(Weights(Next(s, step)), Weights(s))
  {
    var next := Next(s, step);
    StepMonotone(s, step);
    forall id | id in Weights(next)
      ensures id in Weights(s) && Weights(next)[id] <= Weights(s)[id]
    {
      RowNotHeavier(s, step, id);
      RowHasNotification(s, id);
      OlderIsNotHeavier(next.deliveries[id], s.deliveries[id],
                        s.notifications[s.deliveries[id].notification].createdAt);
    }
  }

  /** The recorded row itself gets lighter: it is done, or it has less time left than when it was picked. */
  lemma RecordLightens(s: Sys, worker: Uuid)
    requires Safe(s) && Stamped(s) && Enabled(s, StepRecord(worker)) && Timely(s, StepRecord(worker))
    requires s.attempts[worker].delivery in s.deliveries
    ensures
      var id := s.attempts[worker].delivery;
      && id in Weights(s) && id in Weights(Next(s, StepRecord(worker)))
      && Weights(Next(s, StepRecord(worker)))[id] < Weights(s)[id]
  {
    var a := s.attempts[worker];
    var row := s.deliveries[a.delivery];
    assert HoldsRow(s, a);
    RowHasNotification(s, a.delivery);
    assert s.origin[a.delivery] == (row.notification, row.subscriber);
    assert a.notificationCreatedAt == s.notifications[row.notification].createdAt;
    OutcomeLightens(row, a, s.now);
  }

  /** An outcome weighs less than the row that was picked. */
  lemma OutcomeLightens(row: Delivery, a: Attempt, now: int)
    requires row.status == Processing && row.updatedAt == a.pickedAt && a.verdict.Some?
    requires a.verdict.value == Queued ==>
      a.pickedAt < now && a.pickedAt <= a.notificationCreatedAt + PUBLISHING_GIVE_UP_TIMEOUT
    requires a.verdict.value != Processing
    ensures RowWork(row.(status := a.verdict.value, updatedAt := now), a.notificationCreatedAt)
          < RowWork(row, a.notificationCreatedAt)
  {
  }

  /** No step that adds no rows adds work. */
  lemma StepKeepsWork(s: Sys, step: Step)
    requires Safe(s) && Stamped(s) && Enabled(s, step) && Timely(s, step) && AddsNoRows(step)
    ensures Work(Next(s, step)) <= Work(s)
  {
    StepNotHeavier(s, step);
    SumMonotone(Weights(Next(s, step)), Weights(s));
  }

  /** Every outcome that reaches its row takes work away. */
  lemma RecordReducesWork(s: Sys, worker: Uuid)
    requires Safe(s) && Stamped(s) && Enabled(s, StepRecord(worker)) && Timely(s, StepRecord(worker))
    requires s.attempts[worker].delivery in s.deliveries
    ensures Work(Next(s, StepRecord(worker))) < Work(s)
  {
    var step := StepRecord(worker);
    StepNotHeavier(s, step);
    RecordLightens(s, worker);
    SumDecreases(Weights(Next(s, step)), Weights(s), s.attempts[worker].delivery);
  }

  // ----- Runs -----

  predicate IsQuietRun(s: Sys, steps: seq<Step>)
    decreases |steps|
  {
    steps != [] ==>
      && Enabled(s, steps[0]) && Timely(s, steps[0]) && TakesTime(s, steps[0]) && AddsNoRows(steps[0])
      && IsQuietRun(Next(s, steps[0]), steps[1..])
  }

  function Landed(s: Sys, step: Step): nat {
    if step.StepRecord? && step.worker in s.attempts && s.attempts[step.worker].delivery in s.deliveries then 1 else 0
  }

  /** How many outcomes of a run reach their row. */
  function OutcomesLanded(s: Sys, steps: seq<Step>): nat
    requires IsRun(s, steps)
    decreases |steps|
  {
    if steps == [] then 0 else Landed(s, steps[0]) + OutcomesLanded(Next(s, steps[0]), steps[1..])
  }

  /**
   Termination over all interleavings. With no new rows, outcomes within their lease and failed attempts that
   take time, a run of any length records at most as many outcomes as the queue holds work at its start, even
   with crashes and with the sweeper requeueing what crashed workers left behind.
   */
  lemma {:induction false} OutcomesAreBounded(s: Sys, steps: seq<Step>)
    requires Safe(s) && Stamped(s) && IsQuietRun(s, steps)
    ensures IsTimelyRun(s, steps) && IsRun(s, steps)
    ensures OutcomesLanded(s, steps) + Work(After(s, steps)) <= Work(s)
    ensures Safe(After(s, steps)) && Stamped(After(s, steps))
    decreases |steps|
  {
    if steps != [] {
      var step := steps[0];
      StepSafe(s, step);
      StepStamped(s, step);
      if Landed(s, step) == 1 {
        RecordReducesWork(s, step.worker);
      } else {
        StepKeepsWork(s, step);
      }
      OutcomesAreBounded(Next(s, step), steps[1..]);
    }
  }
}
