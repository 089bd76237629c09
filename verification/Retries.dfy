/**
 How long a delivery that fails is tried again, told by the times of the steps of a run: from the first call to
 `/notify` with its key, one day.
 */
module Retries {
  import opened Wrappers
  import opened Queue
  import opened LeaseProtocol
  import opened Progress

  predicate IsCall(step: Step, project: Uuid, notificationId: string) {
    step.StepNotify? && step.project == project && step.notificationId == notificationId
  }

  predicate NeverCalled(steps: seq<Step>, project: Uuid, notificationId: string) {
    forall i :: 0 <= i < |steps| ==> !IsCall(steps[i], project, notificationId)
  }

  ghost predicate IsStored(s: Sys, project: Uuid, notificationId: string) {
    exists id :: IsNotification(s, project, notificationId, id)
  }

  lemma StepStoresNone(s: Sys, step: Step, project: Uuid, notificationId: string)
    requires Consistent(s) && Enabled(s, step)
    requires !IsStored(s, project, notificationId) && !IsCall(step, project, notificationId)
    ensures !IsStored(Next(s, step), project, notificationId)
  {
    if step.StepEnqueue? {
      UpsertDeliveriesAdds(s, step.notification, step.targets, step.ids);
    }
    forall id ensures !IsNotification(Next(s, step), project, notificationId, id) {
      assert !IsNotification(s, project, notificationId, id);
    }
  }

  lemma {:induction false} StoredByCalls(s: Sys, steps: seq<Step>, project: Uuid, notificationId: string)
    requires Consistent(s) && IsRun(s, steps)
    requires !IsStored(s, project, notificationId) && NeverCalled(steps, project, notificationId)
    ensures !IsStored(After(s, steps), project, notificationId)
    decreases |steps|
  {
    if steps != [] {
      StepStoresNone(s, steps[0], project, notificationId);
      StepConsistent(s, steps[0]);
      StoredByCalls(Next(s, steps[0]), steps[1..], project, notificationId);
    }
  }

  /** A call that finds no row under its key stores one, with the time of the call. */
  lemma FirstCallStores(s: Sys, call: Step)
    requires call.StepNotify? && !IsStored(s, call.project, call.notificationId) && Enabled(s, call)
    ensures Next(s, call) == s.(notifications := s.notifications[call.newId :=
              Notification(call.project, call.notificationId, call.content, s.now)])
  {
    assert forall id :: !IsNotification(s, call.project, call.notificationId, id);
  }

  lemma StepSpares(s: Sys, step: Step, worker: Uuid)
    requires Consistent(s) && Enabled(s, step) && !IsOwnStep(worker, step) && worker in s.attempts
    ensures worker in Next(s, step).attempts && Next(s, step).attempts[worker] == s.attempts[worker]
  {
    if step.StepEnqueue? {
      UpsertDeliveriesAdds(s, step.notification, step.targets, step.ids);
    }
  }

  /** What a worker holds stays as it is while only others act. */
  lemma {:induction false} RunSpares(s: Sys, steps: seq<Step>, worker: Uuid)
    requires Consistent(s) && IsRun(s, steps) && worker in s.attempts
    requires forall i :: 0 <= i < |steps| ==> !IsOwnStep(worker, steps[i])
    ensures worker in After(s, steps).attempts && After(s, steps).attempts[worker] == s.attempts[worker]
    decreases |steps|
  {
    if steps != [] {
      StepSpares(s, steps[0], worker);
      StepConsistent(s, steps[0]);
      RunSpares(Next(s, steps[0]), steps[1..], worker);
    }
  }

  /** `called` is the state of a run from the empty system in which the key is used for the first time, by `call`. */
  ghost predicate FirstCalled(start: int, before: seq<Step>, called: Sys, call: Step) {
    && IsRun(Initial(start), before) && After(Initial(start), before) == called
    && call.StepNotify? && Enabled(called, call)
    && NeverCalled(before, call.project, call.notificationId)
  }

  /** The row of the worker's attempt is for the key of the call. */
  ghost predicate WorksFor(s: Sys, worker: Uuid, call: Step) {
    && call.StepNotify? && worker in s.attempts
    && exists subscriber :: IsFor(s, s.attempts[worker].delivery, call.project, call.notificationId, subscriber)
  }

  lemma StoredSinceCall(start: int, before: seq<Step>, called: Sys, call: Step, between: seq<Step>, ended: Sys)
    requires FirstCalled(start, before, called, call)
    requires IsRun(Next(called, call), between) && After(Next(called, call), between) == ended
    ensures Sound(ended) && IsNotification(ended, call.project, call.notificationId, call.newId)
    ensures ended.notifications[call.newId].createdAt == called.now
  {
    InitialSafe(start);
    RunSound(Initial(start), before);
    assert forall id :: !IsNotification(Initial(start), call.project, call.notificationId, id);
    StoredByCalls(Initial(start), before, call.project, call.notificationId);
    FirstCallStores(called, call);
    StepSound(called, call);
    RunSound(Next(called, call), between);
    NotificationsStay(Next(called, call), between, call.newId);
  }

  lemma OneForKey(s: Sys, project: Uuid, notificationId: string, a: Uuid, b: Uuid)
    requires Consistent(s)
    requires IsNotification(s, project, notificationId, a) && IsNotification(s, project, notificationId, b)
    ensures a == b
  {
  }

  lemma AttemptAge(s: Sys, worker: Uuid, call: Step, id: Uuid)
    requires Sound(s) && WorksFor(s, worker, call) && IsNotification(s, call.project, call.notificationId, id)
    ensures s.attempts[worker].notificationCreatedAt == s.notifications[id].createdAt
  {
    OneForKey(s, call.project, call.notificationId, id, s.origin[s.attempts[worker].delivery].0);
  }

  /**
   A key is used for the first time at the time `called.now`. An attempt on one of its rows ends at the time
   `ended.now`, and its outcome is written after others have acted some more. If it failed, the row is queued again when
   no more than a day has passed between these two times, and failed for good otherwise.
   */
  lemma RetriedForADay(start: int, before: seq<Step>, called: Sys, call: Step, between: seq<Step>, ended: Sys,
                       worker: Uuid, ok: bool, waiting: seq<Step>, written: Sys)
    requires FirstCalled(start, before, called, call)
    requires IsRun(Next(called, call), between) && After(Next(called, call), between) == ended
    requires Enabled(ended, StepEnd(worker, ok)) && WorksFor(ended, worker, call)
    requires IsRun(Next(ended, StepEnd(worker, ok)), waiting)
    requires After(Next(ended, StepEnd(worker, ok)), waiting) == written
    requires forall i :: 0 <= i < |waiting| ==> !IsOwnStep(worker, waiting[i])
    ensures Enabled(written, StepRecord(worker))
    ensures
      var id, after := ended.attempts[worker].delivery, Next(written, StepRecord(worker));
      id in written.deliveries ==>
        && id in after.deliveries
        && after.deliveries[id].status
           == (if ok then Published else if ended.now - called.now <= 86_400_000 then Queued else Failed)
  {
    StoredSinceCall(start, before, called, call, between, ended);
    AttemptAge(ended, worker, call, call.newId);
    StepSound(ended, StepEnd(worker, ok));
    RunSpares(Next(ended, StepEnd(worker, ok)), waiting, worker);
  }

  /** A row is swept exactly when it has been processing for more than five minutes since its last stamp. */
  lemma SweptAfterFiveMinutes(s: Sys, id: Uuid)
    requires id in s.deliveries
    ensures s.deliveries[id].status == Processing && s.now - s.deliveries[id].updatedAt > 300_000
       <==> exists cutoff :: Enabled(s, StepSweep(cutoff)) && SweptBy(s, id, cutoff)
  {
    if s.deliveries[id].status == Processing && s.now - s.deliveries[id].updatedAt > 300_000 {
      assert Enabled(s, StepSweep(s.now - 300_000)) && SweptBy(s, id, s.now - 300_000);
    }
  }

  ghost predicate SweptBy(s: Sys, id: Uuid, cutoff: int)
    requires id in s.deliveries
  {
    Sweep(s, cutoff).deliveries[id].status == Queued && s.deliveries[id].status != Queued
  }
}
