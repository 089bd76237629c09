/**
 The notification delivery queue: the tables, the SQL statements of publisher_service/helpers.rs, and the
 steps of workers, the dead-letter sweeper and `/notify` as one transition system. Every statement is one
 atomic step; times are milliseconds of one clock.
 */
module Queue {
  import opened Wrappers
  import Ordering

  /** Five minutes: the lease of a picked row. */
  const PUBLISHING_TIMEOUT := 300_000
  /** One day after its creation a notification that still fails is given up. */
  const PUBLISHING_GIVE_UP_TIMEOUT := 86_400_000

  datatype Status = Queued | Processing | Published | Failed {
    predicate Terminal() {
      Published? || Failed?
    }
  }

  datatype Content = Content(kind: Uuid, title: string, body: string, icon: Option<string>, url: Option<string>)

  datatype Notification = Notification(project: Uuid, notificationId: string, content: Content, createdAt: int)

  /** A row of subscriber_notification. */
  datatype Delivery = Delivery(notification: Uuid, subscriber: Uuid, status: Status, createdAt: int, updatedAt: int)

  /**
   A worker between its pick and the write of its outcome. The verdict is known once publishing has ended;
   it is written by a later statement.
   */
  datatype Attempt = Attempt(delivery: Uuid, notificationCreatedAt: int, pickedAt: int, verdict: Option<Status>)

  datatype Event =
    | Ended(delivery: Uuid, ok: bool, at: int)
    | Recorded(delivery: Uuid, status: Status, at: int)

  /**
   The tables, the clock and the attempts in flight by worker. `origin` remembers the (notification,
   subscriber) pair of every row that ever existed, `retired` the subscribers that are gone, and `history`
   what attempts ended with and what they wrote.
   */
  datatype Sys = Sys(
    notifications: map<Uuid, Notification>,
    deliveries: map<Uuid, Delivery>,
    subscribers: set<Uuid>,
    now: int,
    attempts: map<Uuid, Attempt>,
    origin: map<Uuid, (Uuid, Uuid)>,
    retired: set<Uuid>,
    history: seq<Event>)

  // ----- The statements -----

  predicate IsNotification(s: Sys, project: Uuid, notificationId: string, id: Uuid) {
    && id in s.notifications
    && s.notifications[id].project == project
    && s.notifications[id].notificationId == notificationId
  }

  /** `ON CONFLICT (project, notification_id) DO UPDATE` of a key column: the stored row wins. */
  function UpsertNotification(s: Sys, project: Uuid, notificationId: string, content: Content, newId: Uuid): Sys {
    if exists id :: id in s.notifications && IsNotification(s, project, notificationId, id) then
      s
    else
      s.(notifications := s.notifications[newId := Notification(project, notificationId, content, s.now)])
  }

  predicate HasDelivery(s: Sys, notification: Uuid, subscriber: Uuid) {
    exists id :: id in s.deliveries &&
                 s.deliveries[id].notification == notification && s.deliveries[id].subscriber == subscriber
  }

  /** One row of the INSERT; a conflict on (notification, subscriber) does nothing. */
  function UpsertDelivery(s: Sys, notification: Uuid, subscriber: Uuid, id: Uuid): Sys {
    if HasDelivery(s, notification, subscriber) then
      s
    else
      s.(deliveries := s.deliveries[id := Delivery(notification, subscriber, Queued, s.now, s.now)],
         origin := s.origin[id := (notification, subscriber)])
  }

  function UpsertDeliveries(s: Sys, notification: Uuid, subscribers: seq<Uuid>, ids: seq<Uuid>): Sys
    requires |subscribers| == |ids|
    decreases |ids|
  {
    if ids == [] then
      s
    else
      UpsertDeliveries(UpsertDelivery(s, notification, subscribers[0], ids[0]),
                       notification, subscribers[1..], ids[1..])
  }

  function Pick(s: Sys, worker: Uuid, id: Uuid): Sys
    requires id in s.deliveries && s.deliveries[id].notification in s.notifications
  {
    var row := s.deliveries[id];
    s.(deliveries := s.deliveries[id := row.(status := Processing, updatedAt := s.now)],
       attempts := s.attempts[worker :=
         Attempt(id, s.notifications[row.notification].createdAt, s.now, None)])
  }

  /** `dead_letter_give_up_check`. */
  predicate GiveUp(notificationCreatedAt: int, now: int) {
    notificationCreatedAt + PUBLISHING_GIVE_UP_TIMEOUT < now
  }

  function Verdict(a: Attempt, ok: bool, now: int): Status {
    if ok then Published else if GiveUp(a.notificationCreatedAt, now) then Failed else Queued
  }

  function End(s: Sys, worker: Uuid, ok: bool): Sys
    requires worker in s.attempts
  {
    var a := s.attempts[worker];
    s.(attempts := s.attempts[worker := a.(verdict := Some(Verdict(a, ok, s.now)))],
       history := s.history + [Ended(a.delivery, ok, s.now)])
  }

  /** `update_message_processing_status`: unconditional, and without effect when the row is gone. */
  function Record(s: Sys, worker: Uuid): Sys
    requires worker in s.attempts && s.attempts[worker].verdict.Some?
  {
    var a := s.attempts[worker];
    var written := s.(attempts := s.attempts - {worker});
    if a.delivery in s.deliveries then
      written.(deliveries := s.deliveries[a.delivery :=
                 s.deliveries[a.delivery].(status := a.verdict.value, updatedAt := s.now)],
               history := s.history + [Recorded(a.delivery, a.verdict.value, s.now)])
    else
      written
  }

  /** `dead_letters_check` with the cutoff that the server computed before running it. */
  function Sweep(s: Sys, cutoff: int): Sys {
    s.(deliveries := map id | id in s.deliveries ::
         var row := s.deliveries[id];
         if row.status == Processing && row.updatedAt < cutoff then row.(status := Queued) else row)
  }

  /** Deleting a subscriber deletes its rows; UUIDs are not used again. */
  function Unsubscribe(s: Sys, subscriber: Uuid): Sys {
    s.(subscribers := s.subscribers - {subscriber},
       retired := s.retired + {subscriber},
       deliveries := map id | id in s.deliveries && s.deliveries[id].subscriber != subscriber :: s.deliveries[id])
  }

  // ----- The transition system -----

  /**
   A crash is any way in which a worker lets go of its attempt without an outcome: it dies, a statement of it fails, or
   its row is gone when it reads it.
   */
  datatype Step =
    | StepNotify(project: Uuid, notificationId: string, content: Content, newId: Uuid)
    | StepEnqueue(notification: Uuid, targets: seq<Uuid>, ids: seq<Uuid>)
    | StepPick(worker: Uuid, delivery: Uuid)
    | StepEnd(worker: Uuid, ok: bool)
    | StepRecord(worker: Uuid)
    | StepCrash(worker: Uuid)
    | StepSweep(cutoff: int)
    | StepSubscribe(subscriber: Uuid)
    | StepUnsubscribe(subscriber: Uuid)
    | StepPass(to: int)

  /**
   When a step can happen. New identifiers are fresh. An enqueueing statement that names a missing
   notification or subscriber violates a foreign key and changes nothing, so it is not a step.
   */
  predicate Enabled(s: Sys, step: Step) {
    match step
    case StepNotify(_, _, _, newId) => newId !in s.notifications
    case StepEnqueue(notification, targets, ids) =>
      && notification in s.notifications && |targets| == |ids|
      && (forall target :: target in targets ==> target in s.subscribers)
      && (forall id :: id in ids ==> id !in s.origin) && Ordering.Distinct(ids)
    case StepPick(worker, id) =>
      && worker !in s.attempts && id in s.deliveries && s.deliveries[id].status == Queued
      && s.deliveries[id].notification in s.notifications
    case StepEnd(worker, _) => worker in s.attempts && s.attempts[worker].verdict.None?
    case StepRecord(worker) => worker in s.attempts && s.attempts[worker].verdict.Some?
    case StepCrash(worker) => worker in s.attempts
    case StepSweep(cutoff) => cutoff + PUBLISHING_TIMEOUT <= s.now
    case StepSubscribe(subscriber) => subscriber !in s.subscribers && subscriber !in s.retired
    case StepUnsubscribe(subscriber) => subscriber in s.subscribers
    case StepPass(to) => s.now <= to
  }

  function Next(s: Sys, step: Step): Sys
    requires Enabled(s, step)
  {
    match step
    case StepNotify(project, notificationId, content, newId) =>
      UpsertNotification(s, project, notificationId, content, newId)
    case StepEnqueue(notification, targets, ids) => UpsertDeliveries(s, notification, targets, ids)
    case StepPick(worker, id) => Pick(s, worker, id)
    case StepEnd(worker, ok) => End(s, worker, ok)
    case StepRecord(worker) => Record(s, worker)
    case StepCrash(worker) => s.(attempts := s.attempts - {worker})
    case StepSweep(cutoff) => Sweep(s, cutoff)
    case StepSubscribe(subscriber) => s.(subscribers := s.subscribers + {subscriber})
    case StepUnsubscribe(subscriber) => Unsubscribe(s, subscriber)
    case StepPass(to) => s.(now := to)
  }

  predicate IsOwnStep(worker: Uuid, step: Step) {
    match step
    case StepPick(w, _) => w == worker
    case StepEnd(w, _) => w == worker
    case StepRecord(w) => w == worker
    case StepCrash(w) => w == worker
    case _ => false
  }

  predicate IsRun(s: Sys, steps: seq<Step>)
    decreases |steps|
  {
    steps != [] ==> Enabled(s, steps[0]) && IsRun(Next(s, steps[0]), steps[1..])
  }

  function After(s: Sys, steps: seq<Step>): Sys
    requires IsRun(s, steps)
    decreases |steps|
  {
    if steps == [] then s else After(Next(s, steps[0]), steps[1..])
  }

  function Initial(now: int): Sys {
    Sys(map[], map[], {}, now, map[], map[], {}, [])
  }

  // ----- The table constraints and what identifies a row -----

  /** The unique constraints, the foreign keys, and one row per (notification, subscriber) pair for all time. */
  ghost predicate Consistent(s: Sys) {
    && (forall i, j :: i in s.notifications && j in s.notifications && i != j ==>
          s.notifications[i].project != s.notifications[j].project ||
          s.notifications[i].notificationId != s.notifications[j].notificationId)
    && (forall id :: id in s.deliveries ==>
          && id in s.origin && s.origin[id] == (s.deliveries[id].notification, s.deliveries[id].subscriber)
          && s.deliveries[id].subscriber in s.subscribers)
    && (forall id :: id in s.origin ==> s.origin[id].0 in s.notifications)
    && (forall i, j :: i in s.origin && j in s.origin && i != j ==> s.origin[i] != s.origin[j])
    && (forall id :: id in s.origin && id !in s.deliveries ==> s.origin[id].1 in s.retired)
    && s.subscribers !! s.retired
  }

  /** An attempt knows its row, when it picked it, and how old the notification is. */
  ghost predicate AttemptsKnown(s: Sys) {
    forall w :: w in s.attempts ==>
      && s.attempts[w].pickedAt <= s.now
      && s.attempts[w].delivery in s.origin
      && s.origin[s.attempts[w].delivery].0 in s.notifications
      && s.attempts[w].notificationCreatedAt == s.notifications[s.origin[s.attempts[w].delivery].0].createdAt
  }

  /** From `s` to `next` only queued rows were added, with new identifiers, for the targets. */
  ghost predicate OnlyAdds(s: Sys, next: Sys, notification: Uuid, targets: seq<Uuid>, ids: seq<Uuid>) {
    && next == s.(deliveries := next.deliveries, origin := next.origin)
    && (forall id :: id in s.deliveries ==> id in next.deliveries && next.deliveries[id] == s.deliveries[id])
    && (forall id :: id in s.origin ==> id in next.origin && next.origin[id] == s.origin[id])
    && (forall id :: id in next.origin && id !in s.origin ==> id in ids)
    && (forall id :: id in next.deliveries && id !in s.deliveries ==>
          && id !in s.origin
          && next.deliveries[id].notification == notification && next.deliveries[id].subscriber in targets
          && next.deliveries[id].status == Queued
          && next.deliveries[id].createdAt == s.now && next.deliveries[id].updatedAt == s.now)
  }

  lemma UpsertDeliveryConsistent(s: Sys, notification: Uuid, subscriber: Uuid, id: Uuid)
    requires Consistent(s) && notification in s.notifications && subscriber in s.subscribers && id !in s.origin
    ensures Consistent(UpsertDelivery(s, notification, subscriber, id))
  {
    if !HasDelivery(s, notification, subscriber) {
      forall i | i in s.origin ensures s.origin[i] != (notification, subscriber) {
        NewPair(s, notification, subscriber, i);
      }
      AddedConsistent(s, UpsertDelivery(s, notification, subscriber, id), notification, subscriber, id);
    }
  }

  lemma NewPair(s: Sys, notification: Uuid, subscriber: Uuid, i: Uuid)
    requires Consistent(s) && subscriber in s.subscribers && !HasDelivery(s, notification, subscriber) && i in s.origin
    ensures s.origin[i] != (notification, subscriber)
  {
    assert i in s.deliveries ==> s.origin[i] == (s.deliveries[i].notification, s.deliveries[i].subscriber);
  }

  /** A row with a new identifier and a new pair keeps the constraints. */
  lemma AddedConsistent(s: Sys, next: Sys, notification: Uuid, subscriber: Uuid, id: Uuid)
    requires Consistent(s) && notification in s.notifications && subscriber in s.subscribers && id !in s.origin
    requires forall i :: i in s.origin ==> s.origin[i] != (notification, subscriber)
    requires next == s.(deliveries := s.deliveries[id := Delivery(notification, subscriber, Queued, s.now, s.now)],
                        origin := s.origin[id := (notification, subscriber)])
    ensures Consistent(next)
  {
    forall i, j | i in next.origin && j in next.origin && i != j ensures next.origin[i] != next.origin[j] {
      assert i == id || j == id || s.origin[i] != s.origin[j];
    }
  }

  lemma UpsertDeliveryAdds(s: Sys, notification: Uuid, subscriber: Uuid, id: Uuid)
    requires id !in s.origin && id !in s.deliveries
    ensures OnlyAdds(s, UpsertDelivery(s, notification, subscriber, id), notification, [subscriber], [id])
  {
  }

  lemma AddsCompose(s: Sys, mid: Sys, next: Sys, notification: Uuid, targets: seq<Uuid>, ids: seq<Uuid>)
    requires targets != [] && ids != []
    requires OnlyAdds(s, mid, notification, [targets[0]], [ids[0]])
    requires OnlyAdds(mid, next, notification, targets[1..], ids[1..])
    ensures OnlyAdds(s, next, notification, targets, ids)
  {
  }

  /** What an enqueueing statement does: it only adds queued rows, and the unique pairs stay unique. */
  lemma {:induction false} UpsertDeliveriesAdds(s: Sys, notification: Uuid, targets: seq<Uuid>, ids: seq<Uuid>)
    requires Consistent(s) && Enabled(s, StepEnqueue(notification, targets, ids))
    ensures Consistent(UpsertDeliveries(s, notification, targets, ids))
    ensures OnlyAdds(s, UpsertDeliveries(s, notification, targets, ids), notification, targets, ids)
    decreases |ids|
  {
    if ids != [] {
      var mid := UpsertDelivery(s, notification, targets[0], ids[0]);
      UpsertDeliveryConsistent(s, notification, targets[0], ids[0]);
      UpsertDeliveryAdds(s, notification, targets[0], ids[0]);
      LaterIds(s, notification, targets, ids);
      UpsertDeliveriesAdds(mid, notification, targets[1..], ids[1..]);
      AddsCompose(s, mid, UpsertDeliveries(mid, notification, targets[1..], ids[1..]), notification, targets, ids);
    }
  }

  lemma StillHas(s: Sys, next: Sys, notification: Uuid, target: Uuid)
    requires forall id :: id in s.deliveries ==> id in next.deliveries && next.deliveries[id] == s.deliveries[id]
    requires HasDelivery(s, notification, target)
    ensures HasDelivery(next, notification, target)
  {
    var id :| id in s.deliveries &&
              s.deliveries[id].notification == notification && s.deliveries[id].subscriber == target;
    assert id in next.deliveries;
  }

  lemma UpsertDeliveryCovers(s: Sys, notification: Uuid, subscriber: Uuid, id: Uuid)
    ensures HasDelivery(UpsertDelivery(s, notification, subscriber, id), notification, subscriber)
  {
    assert !HasDelivery(s, notification, subscriber) ==>
      id in UpsertDelivery(s, notification, subscriber, id).deliveries;
  }

  lemma LaterIds(s: Sys, notification: Uuid, targets: seq<Uuid>, ids: seq<Uuid>)
    requires Enabled(s, StepEnqueue(notification, targets, ids)) && ids != []
    ensures
      var mid := UpsertDelivery(s, notification, targets[0], ids[0]);
      Enabled(mid, StepEnqueue(notification, targets[1..], ids[1..]))
  {
    assert forall id :: id in ids[1..] ==> id in ids && id != ids[0];
  }

  /** Afterwards every target has a row for the notification. */
  lemma {:induction false} UpsertDeliveriesCovers(s: Sys, notification: Uuid, targets: seq<Uuid>, ids: seq<Uuid>,
                                                  i: nat)
    requires Consistent(s) && Enabled(s, StepEnqueue(notification, targets, ids)) && i < |targets|
    ensures HasDelivery(UpsertDeliveries(s, notification, targets, ids), notification, targets[i])
    decreases |ids|
  {
    var mid := UpsertDelivery(s, notification, targets[0], ids[0]);
    UpsertDeliveryConsistent(s, notification, targets[0], ids[0]);
    LaterIds(s, notification, targets, ids);
    if i == 0 {
      UpsertDeliveryCovers(s, notification, targets[0], ids[0]);
      UpsertDeliveriesAdds(mid, notification, targets[1..], ids[1..]);
      StillHas(mid, UpsertDeliveries(mid, notification, targets[1..], ids[1..]), notification, targets[0]);
    } else {
      UpsertDeliveriesCovers(mid, notification, targets[1..], ids[1..], i - 1);
    }
  }

  /** Rows may change their status and `updated_at`, but stay the same rows. */
  ghost predicate SameRows(s: Sys, next: Sys) {
    && next.notifications == s.notifications && next.subscribers == s.subscribers
    && next.origin == s.origin && next.retired == s.retired
    && next.deliveries.Keys == s.deliveries.Keys
    && forall id :: id in s.deliveries ==>
         && next.deliveries[id].notification == s.deliveries[id].notification
         && next.deliveries[id].subscriber == s.deliveries[id].subscriber
         && next.deliveries[id].createdAt == s.deliveries[id].createdAt
  }

  predicate IsPublisherStep(step: Step) {
    step.StepPick? || step.StepEnd? || step.StepRecord? || step.StepCrash? || step.StepSweep? || step.StepPass?
  }

  /** Publisher steps never add or drop a row, and never change what a row is about. */
  lemma PublisherKeepsRows(s: Sys, step: Step)
    requires Enabled(s, step) && IsPublisherStep(step)
    ensures SameRows(s, Next(s, step))
  {
  }

  lemma SameRowsConsistent(s: Sys, next: Sys)
    requires Consistent(s) && SameRows(s, next)
    ensures Consistent(next)
  {
  }

  lemma NotifyConsistent(s: Sys, project: Uuid, notificationId: string, content: Content, newId: Uuid)
    requires Consistent(s) && newId !in s.notifications
    ensures Consistent(UpsertNotification(s, project, notificationId, content, newId))
  {
    forall id | id in s.notifications && UpsertNotification(s, project, notificationId, content, newId) != s
      ensures s.notifications[id].project != project || s.notifications[id].notificationId != notificationId
    {
      assert !IsNotification(s, project, notificationId, id);
    }
  }

  /** The constraints hold in every reachable state. */
  lemma StepConsistent(s: Sys, step: Step)
    requires Consistent(s) && Enabled(s, step)
    ensures Consistent(Next(s, step))
  {
    if IsPublisherStep(step) {
      PublisherKeepsRows(s, step);
      SameRowsConsistent(s, Next(s, step));
    } else {
      match step
      case StepEnqueue(notification, targets, ids) => UpsertDeliveriesAdds(s, notification, targets, ids);
      case StepNotify(project, notificationId, content, newId) =>
        NotifyConsistent(s, project, notificationId, content, newId);
      case StepUnsubscribe(subscriber) => UnsubscribeConsistent(s, subscriber);
      case StepSubscribe(subscriber) => SubscribeConsistent(s, subscriber);
      case _ =>
    }
  }

  lemma UnsubscribeConsistent(s: Sys, subscriber: Uuid)
    requires Consistent(s)
    ensures Consistent(Unsubscribe(s, subscriber))
  {
    forall id | id in s.origin && id !in Unsubscribe(s, subscriber).deliveries
      ensures s.origin[id].1 in Unsubscribe(s, subscriber).retired
    {
      assert id in s.deliveries ==> s.deliveries[id].subscriber == subscriber;
    }
  }

  lemma SubscribeConsistent(s: Sys, subscriber: Uuid)
    requires Consistent(s) && subscriber !in s.retired
    ensures Consistent(s.(subscribers := s.subscribers + {subscriber}))
  {
  }

  /** Notifications and row identities are never changed once they exist, and time does not go back. */
  lemma StepMonotone(s: Sys, step: Step)
    requires Consistent(s) && Enabled(s, step)
    ensures forall id :: id in s.notifications ==>
      id in Next(s, step).notifications && Next(s, step).notifications[id] == s.notifications[id]
    ensures forall id :: id in s.origin ==> id in Next(s, step).origin && Next(s, step).origin[id] == s.origin[id]
    ensures s.now <= Next(s, step).now
  {
    if step.StepEnqueue? {
      UpsertDeliveriesAdds(s, step.notification, step.targets, step.ids);
    }
  }

  lemma StepAttemptsKnown(s: Sys, step: Step)
    requires Consistent(s) && AttemptsKnown(s) && Enabled(s, step)
    ensures AttemptsKnown(Next(s, step))
  {
    StepMonotone(s, step);
    if step.StepEnqueue? {
      UpsertDeliveriesAdds(s, step.notification, step.targets, step.ids);
    }
  }
}
