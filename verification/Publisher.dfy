/**
 The publisher service as it runs: the SQL statements as methods that change the tables in place, and the
 worker loop `process_queued_messages`, each proved to be a step or a run of the transition system in Queue.
 */
module Publisher {
  import opened Wrappers
  import opened Queue
  import opened LeaseProtocol
  import opened QueueWork
  import opened Progress

  datatype Statement = Picking | Reading | Writing

  /**
   One turn of a worker's loop: how publishing ends, the statement that fails with a database error, if one does,
   and what everyone else does before each of the worker's moves.
   */
  datatype Turn = Turn(delivers: bool, failing: Option<Statement>, beforePick: seq<Step>, beforeRead: seq<Step>,
                       beforeEnd: seq<Step>, beforeWrite: seq<Step>)

  /** Why the loop stopped. */
  datatype Exit = NothingQueued | RowGone(row: Uuid) | Broken(at: Statement)

  /** The loop between two turns. */
  ghost predicate Underway(start: Sys, run: seq<Step>, s: Sys, worker: Uuid, deadline: int) {
    Ready(start, deadline) && Reaches(start, run, s) && worker !in s.attempts
  }

  lemma UnderwayAtStart(s: Sys, worker: Uuid) returns (d: int)
    requires Sound(s) && worker !in s.attempts
    ensures Underway(s, [], s, worker, d)
  {
    d := SomeDeadline(s);
  }

  lemma {:induction false} RunReady(s: Sys, run: seq<Step>, t: Sys, d: int)
    requires Ready(s, d) && Reaches(s, run, t)
    ensures Ready(t, d)
    decreases |run|
  {
    if run != [] {
      StepSound(s, run[0]);
      KeepsDeadline(s, run[0], d);
      RunReady(Next(s, run[0]), run[1..], t, d);
    }
  }

  ghost predicate NoneFailed(turns: nat -> Turn, n: nat) {
    forall i :: 0 <= i < n ==> turns(i).failing.None?
  }

  lemma OneMoreTurn(turns: nat -> Turn, n: nat)
    requires NoneFailed(turns, n) && turns(n).failing.None?
    ensures NoneFailed(turns, n + 1)
  {
  }

  /** If everyone was on time, this worker included, the leases hold and there is no more work than before. */
  ghost predicate SafeIfTimely(s: Sys, run: seq<Step>, t: Sys) {
    Safe(s) && Stamped(s) && IsTimelyRun(s, run) ==> Safe(t) && Stamped(t) && Work(t) <= Work(s)
  }

  /** The loop is over: what it did was a run without new rows, and the worker holds nothing. */
  ghost predicate IsOver(start: Sys, run: seq<Step>, end: Sys, worker: Uuid) {
    Reaches(start, run, end) && Sound(end) && worker !in end.attempts && SafeIfTimely(start, run, end)
  }

  // ----- What others do between two statements -----

  /** Anything that adds no row, late writes of outcomes included. */
  predicate Allowed(s: Sys, worker: Uuid, step: Step) {
    Enabled(s, step) && TakesTime(s, step) && AddsNoRows(step) && !IsOwnStep(worker, step)
  }

  /** The steps of others; those not allowed do not happen. */
  function Others(s: Sys, worker: Uuid, steps: seq<Step>): Sys
    decreases |steps|
  {
    if steps == [] then
      s
    else
      Others(if Allowed(s, worker, steps[0]) then Next(s, steps[0]) else s, worker, steps[1..])
  }

  ghost predicate Ready(s: Sys, deadline: int) {
    Sound(s) && HasDeadline(s, deadline)
  }

  /** A run from `s` to `t` that brings no rows, and does not lead back. */
  ghost predicate Leads(s: Sys, run: seq<Step>, t: Sys, deadline: int) {
    Reaches(s, run, t) && AsFar(s, t, deadline) && s.now <= t.now
  }

  lemma LeadsThen(s: Sys, first: seq<Step>, t: Sys, second: seq<Step>, u: Sys, d: int)
    requires Leads(s, first, t, d) && Leads(t, second, u, d)
    ensures Leads(s, first + second, u, d)
  {
    ReachesThen(s, first, t, second, u);
  }

  /** The worker holds what it held. */
  predicate Undisturbed(s: Sys, t: Sys, worker: Uuid) {
    && (worker in t.attempts <==> worker in s.attempts)
    && (worker in s.attempts ==> t.attempts[worker] == s.attempts[worker])
  }

  /** One step without new rows, of the worker or of someone else. */
  lemma StepLeads(s: Sys, step: Step, row: Uuid, d: int)
    requires Ready(s, d) && Enabled(s, step) && TakesTime(s, step) && AddsNoRows(step)
    ensures
      var t := Next(s, step);
      Ready(t, d) && Leads(s, [step], t, d) && ClosedForLess(s, t, row, d)
  {
    StepSound(s, step);
    KeepsDeadline(s, step, d);
    StepAsFar(s, step, row, d);
    StepMonotone(s, step);
    ReachesByStep(s, step);
  }

  lemma ThenStep(s: Sys, run: seq<Step>, t: Sys, step: Step, row: Uuid, d: int) returns (longer: seq<Step>)
    requires Leads(s, run, t, d) && Ready(t, d) && Enabled(t, step) && TakesTime(t, step) && AddsNoRows(step)
    ensures
      var u := Next(t, step);
      Leads(s, longer, u, d) && Ready(u, d) && ClosedForLess(t, u, row, d)
  {
    StepLeads(t, step, row, d);
    LeadsThen(s, run, t, [step], Next(t, step), d);
    longer := run + [step];
  }

  /** The pick, after `run`: the row is then open, and the worker has an attempt on it. */
  lemma PickLeads(s: Sys, run: seq<Step>, t: Sys, worker: Uuid, row: Uuid, d: int) returns (longer: seq<Step>)
    requires Leads(s, run, t, d) && Ready(t, d) && Enabled(t, StepPick(worker, row))
    ensures
      var u := Next(t, StepPick(worker, row));
      && Leads(s, longer, u, d) && Ready(u, d) && OpenOrFurther(s, u, row, d)
      && worker in u.attempts && u.attempts[worker].delivery == row && u.attempts[worker].verdict.None?
      && s.now <= u.attempts[worker].pickedAt
  {
    longer := ThenStep(s, run, t, StepPick(worker, row), row, d);
    PickOpens(t, worker, row);
  }

  lemma PickOpens(s: Sys, worker: Uuid, row: Uuid)
    requires Enabled(s, StepPick(worker, row))
    ensures
      var t := Next(s, StepPick(worker, row));
      && IsOpen(t, row) && worker in t.attempts && t.attempts[worker].delivery == row
      && t.attempts[worker].verdict.None? && t.attempts[worker].pickedAt == t.now == s.now
  {
  }

  lemma {:induction false} OthersLead(s: Sys, worker: Uuid, steps: seq<Step>, row: Uuid, d: int)
      returns (run: seq<Step>)
    requires Ready(s, d)
    ensures
      var t := Others(s, worker, steps);
      Ready(t, d) && Undisturbed(s, t, worker) && Leads(s, run, t, d) && ClosedForLess(s, t, row, d)
    decreases |steps|
  {
    if steps == [] {
      run := [];
    } else if Allowed(s, worker, steps[0]) {
      var t, u := Next(s, steps[0]), Others(s, worker, steps);
      StepLeads(s, steps[0], row, d);
      OthersKeepAttempt(s, steps[0], worker);
      var later := OthersLead(t, worker, steps[1..], row, d);
      LeadsThen(s, [steps[0]], t, later, u, d);
      ClosedThen(s, t, u, row, d);
      run := [steps[0]] + later;
    } else {
      run := OthersLead(s, worker, steps[1..], row, d);
    }
  }

  ghost predicate NoneQueued(s: Sys) {
    forall id :: id in s.deliveries ==> s.deliveries[id].status != Queued
  }

  /** The state in which the row is read, when the UPDATE has taken `row` in the state `t`. */
  ghost function WhenRead(t: Sys, worker: Uuid, turn: Turn, row: Uuid): Sys
    requires Enabled(t, StepPick(worker, row))
  {
    Others(Next(t, StepPick(worker, row)), worker, turn.beforeRead)
  }

  /** The SELECT, in the state `read`: the row is given if it is there, and else the worker lets go of it. */
  ghost predicate ReadsRightly(read: Sys, worker: Uuid, turn: Turn, row: Uuid, picked: Result<Option<Uuid>, Statement>,
                               next: Sys)
  {
    if turn.failing == Some(Reading) then
      picked == Err(Reading) && Enabled(read, StepCrash(worker)) && next == Next(read, StepCrash(worker))
    else if row in read.deliveries then
      picked == Ok(Some(row)) && next == read
    else
      picked == Ok(None) && Enabled(read, StepCrash(worker)) && next == Next(read, StepCrash(worker))
  }

  /** The two statements of a pick, from `s` to `next`: what the first one took, and what the worker gets. */
  ghost predicate PicksRightly(s: Sys, worker: Uuid, turn: Turn, row: Option<Uuid>,
                               picked: Result<Option<Uuid>, Statement>, next: Sys)
  {
    var t := Others(s, worker, turn.beforePick);
    if turn.failing == Some(Picking) then
      row.None? && picked == Err(Picking) && next == t
    else if row.None? then
      NoneQueued(t) && picked == Ok(None) && next == t
    else
      Enabled(t, StepPick(worker, row.value)) &&
      ReadsRightly(WhenRead(t, worker, turn, row.value), worker, turn, row.value, picked, next)
  }

  /** Why a turn was the last one, by what its pick did. */
  ghost predicate TurnEnded(s: Sys, worker: Uuid, turn: Turn, exit: Exit, next: Sys) {
    match exit
    case NothingQueued => PicksRightly(s, worker, turn, None, Ok(None), next)
    case RowGone(row) => PicksRightly(s, worker, turn, Some(row), Ok(None), next)
    case Broken(at) =>
      turn.failing == Some(at) && (at.Writing? || exists row :: PicksRightly(s, worker, turn, row, Err(at), next))
  }

  lemma FailedPick(s: Sys, worker: Uuid, turn: Turn, row: Option<Uuid>, at: Statement, next: Sys)
    requires PicksRightly(s, worker, turn, row, Err(at), next)
    ensures TurnEnded(s, worker, turn, Broken(at), next)
  {
  }

  lemma EmptyPick(s: Sys, worker: Uuid, turn: Turn, row: Option<Uuid>, next: Sys)
    requires PicksRightly(s, worker, turn, row, Ok(None), next)
    ensures TurnEnded(s, worker, turn, if row.None? then NothingQueued else RowGone(row.value), next)
  {
    assert row.Some? ==> row == Some(row.value);
  }

  lemma GoodPick(s: Sys, worker: Uuid, turn: Turn, row: Option<Uuid>, picked: Uuid, mid: Sys)
    requires PicksRightly(s, worker, turn, row, Ok(Some(picked)), mid)
    ensures row == Some(picked) && turn.failing != Some(Picking) && turn.failing != Some(Reading)
    ensures turn.failing != Some(Writing) ==> TurnWorked(s, worker, turn)
  {
    if turn.failing != Some(Writing) {
      NothingFailed(turn.failing);
      assert PicksRightly(s, worker, turn, Some(picked), Ok(Some(picked)), mid);
    }
  }

  /** The turn picked a row, which was there when it was read, and nothing failed. */
  ghost predicate TurnWorked(s: Sys, worker: Uuid, turn: Turn) {
    turn.failing.None? && exists row: Uuid, mid :: PicksRightly(s, worker, turn, Some(row), Ok(Some(row)), mid)
  }

  lemma NothingFailed(failing: Option<Statement>)
    requires failing != Some(Picking) && failing != Some(Reading) && failing != Some(Writing)
    ensures failing.None?
  {
    if failing.Some? {
      match failing.value
      case Picking =>
      case Reading =>
      case Writing =>
    }
  }

  class PublisherService {
    var notifications: map<Uuid, Notification>
    var deliveries: map<Uuid, Delivery>
    var subscribers: set<Uuid>
    var now: int
    /** What the workers hold in local variables while they publish. */
    var attempts: map<Uuid, Attempt>
    /** Bookkeeping that no statement reads: see Queue.Sys. */
    var origin: map<Uuid, (Uuid, Uuid)>
    var retired: set<Uuid>
    var history: seq<Event>

    function View(): Sys
      reads this
    {
      Sys(notifications, deliveries, subscribers, now, attempts, origin, retired, history)
    }

    constructor (now: int)
      ensures View() == Initial(now)
    {
      this.now := now;
      notifications, deliveries, subscribers := map[], map[], {};
      attempts, origin, retired, history := map[], map[], {}, [];
    }

    /** Any one step of someone else. */
    method Perform(step: Step)
      requires Enabled(View(), step)
      modifies this
      ensures View() == Next(old(View()), step)
    {
      var s := Next(View(), step);
      notifications, deliveries, subscribers, now := s.notifications, s.deliveries, s.subscribers, s.now;
      attempts, origin, retired, history := s.attempts, s.origin, s.retired, s.history;
    }

    /** Returns the stored notification, whose content is that of the first call with this key. */
    method UpsertNotification(project: Uuid, notificationId: string, content: Content, newId: Uuid)
        returns (id: Uuid, stored: Content)
      requires Consistent(View()) && newId !in notifications
      modifies this`notifications
      ensures View() == Next(old(View()), StepNotify(project, notificationId, content, newId))
      ensures Consistent(View())
      ensures IsNotification(View(), project, notificationId, id) && stored == notifications[id].content
      ensures forall other :: other in old(notifications) ==>
        other in notifications && notifications[other] == old(notifications)[other]
      ensures id in old(notifications) ==> notifications == old(notifications)
      ensures id !in old(notifications) ==>
        id == newId && notifications == old(notifications)[id := Notification(project, notificationId, content, now)]
    {
      NotifyConsistent(View(), project, notificationId, content, newId);
      if existing :| existing in notifications && IsNotification(View(), project, notificationId, existing) {
        id := existing;
      } else {
        id := newId;
        notifications := notifications[newId := Notification(project, notificationId, content, now)];
      }
      stored := notifications[id].content;
    }

    /** Inserts a queued row for every target that has none. */
    method UpsertSubscriberNotifications(notification: Uuid, targets: seq<Uuid>, ids: seq<Uuid>)
      requires Consistent(View()) && Enabled(View(), StepEnqueue(notification, targets, ids))
      modifies this`deliveries, this`origin
      ensures View() == Next(old(View()), StepEnqueue(notification, targets, ids))
      ensures Consistent(View()) && OnlyAdds(old(View()), View(), notification, targets, ids)
      ensures forall i :: 0 <= i < |targets| ==> HasDelivery(View(), notification, targets[i])
    {
      ghost var s := View();
      for i := 0 to |targets|
        invariant View() == UpsertDeliveries(s, notification, targets[..i], ids[..i])
      {
        UpsertDeliveriesSnoc(s, notification, targets[..i], ids[..i], targets[i], ids[i]);
        assert targets[..i + 1] == targets[..i] + [targets[i]] && ids[..i + 1] == ids[..i] + [ids[i]];
        if !HasDelivery(View(), notification, targets[i]) {
          deliveries := deliveries[ids[i] := Delivery(notification, targets[i], Queued, now, now)];
          origin := origin[ids[i] := (notification, targets[i])];
        }
      }
      assert targets[..|targets|] == targets && ids[..|targets|] == ids;
      UpsertDeliveriesAdds(s, notification, targets, ids);
      forall i | 0 <= i < |targets| ensures HasDelivery(View(), notification, targets[i]) {
        UpsertDeliveriesCovers(s, notification, targets, ids, i);
      }
    }

    /** The UPDATE of a pick: marks any queued row as processing; nothing exactly when no row is queued. */
    method PickRow(worker: Uuid) returns (row: Option<Uuid>)
      requires Consistent(View()) && worker !in attempts
      modifies this`deliveries, this`attempts
      ensures row.None? <==> forall id :: id in old(deliveries) ==> old(deliveries)[id].status != Queued
      ensures row.None? ==> View() == old(View())
      ensures row.Some? ==>
        && Enabled(old(View()), StepPick(worker, row.value))
        && View() == Next(old(View()), StepPick(worker, row.value))
    {
      if id :| id in deliveries && deliveries[id].status == Queued {
        row := Some(id);
        RowHasNotification(View(), id);
        var delivery := deliveries[id];
        deliveries := deliveries[id := delivery.(status := Processing, updatedAt := now)];
        attempts := attempts[worker := Attempt(id, notifications[delivery.notification].createdAt, now, None)];
      } else {
        row := None;
      }
    }

    /** The SELECT of a pick: when the row is gone there is nothing to work on, and the worker lets go of it. */
    method ReadRow(worker: Uuid) returns (found: bool)
      requires worker in attempts
      modifies this`attempts
      ensures found <==> attempts == old(attempts)
      ensures found <==> old(attempts)[worker].delivery in deliveries
      ensures !found ==> View() == Next(old(View()), StepCrash(worker))
    {
      found := attempts[worker].delivery in deliveries;
      if !found {
        attempts := attempts - {worker};
      }
    }

    /** Publishing has ended: the outcome is known but not written yet. */
    method EndAttempt(worker: Uuid, ok: bool) returns (status: Status)
      requires Enabled(View(), StepEnd(worker, ok))
      modifies this`attempts, this`history
      ensures View() == Next(old(View()), StepEnd(worker, ok))
      ensures status == Verdict(old(attempts)[worker], ok, now)
    {
      var a := attempts[worker];
      status := if ok then Published else if GiveUp(a.notificationCreatedAt, now) then Failed else Queued;
      attempts := attempts[worker := a.(verdict := Some(status))];
      history := history + [Ended(a.delivery, ok, now)];
    }

    /** The unconditional UPDATE by row id; the worker is then free. */
    method UpdateMessageProcessingStatus(worker: Uuid, status: Status)
      requires Enabled(View(), StepRecord(worker)) && attempts[worker].verdict == Some(status)
      modifies this`deliveries, this`attempts, this`history
      ensures View() == Next(old(View()), StepRecord(worker))
    {
      var id := attempts[worker].delivery;
      attempts := attempts - {worker};
      if id in deliveries {
        deliveries := deliveries[id := deliveries[id].(status := status, updatedAt := now)];
        history := history + [Recorded(id, status, now)];
      }
    }

    /** Requeues the processing rows stamped before the cutoff, without stamping them. */
    method DeadLettersCheck(cutoff: int)
      requires Enabled(View(), StepSweep(cutoff))
      modifies this`deliveries
      ensures View() == Next(old(View()), StepSweep(cutoff))
      ensures deliveries.Keys == old(deliveries).Keys
      ensures forall id :: id in deliveries ==>
        !(deliveries[id].status == Processing && deliveries[id].updatedAt < cutoff)
      ensures forall id :: id in deliveries ==> deliveries[id].updatedAt == old(deliveries)[id].updatedAt
    {
      deliveries := map id | id in deliveries ::
        if deliveries[id].status == Processing && deliveries[id].updatedAt < cutoff
        then deliveries[id].(status := Queued) else deliveries[id];
    }

    /** What everyone else does between two moves of the worker. */
    method Interfere(worker: Uuid, others: seq<Step>)
      modifies this
      ensures View() == Others(old(View()), worker, others)
    {
      ghost var all := Others(View(), worker, others);
      for i := 0 to |others|
        invariant Others(View(), worker, others[i..]) == all
      {
        assert others[i..][0] == others[i] && others[i..][1..] == others[i + 1..];
        if Allowed(View(), worker, others[i]) {
          Perform(others[i]);
        }
      }
      assert others[|others|..] == [];
    }

    /**
     `process_queued_messages`, whatever everyone else does between its statements, and however late anyone writes an
     outcome, this worker included. The loop terminates. It ends well either because its last pick found nothing queued,
     or because the row it had picked was deleted before it was read; then other rows may still be queued. It fails
     exactly in a statement that fails. `from` is the state in which its last turn began. What it did is a run of the
     transition system; if that run was timely, the leases hold after it and there is no more work than before.
     */
    method ProcessQueuedMessages(worker: Uuid, turns: nat -> Turn)
        returns (exit: Exit, last: nat, ghost run: seq<Step>, ghost from: Sys)
      requires Sound(View()) && worker !in attempts
      modifies this
      ensures IsOver(old(View()), run, View(), worker)
      ensures TurnEnded(from, worker, turns(last), exit, View())
      ensures NoneFailed(turns, last) && (last == 0 ==> from == old(View()))
    {
      ghost var start := View();
      last, run, from := 0, [], start;
      ghost var d := UnderwayAtStart(start, worker);
      while true
        invariant View() == from && Underway(start, run, from, worker, d)
        invariant NoneFailed(turns, last) && (last == 0 ==> from == start)
        decreases Slack(d, from.now), Remaining(from)
      {
        var stopped;
        stopped, run := NextTurn(worker, turns(last), start, run, d);
        if stopped.Some? {
          return stopped.value, last, run, from;
        }
        OneMoreTurn(turns, last);
        last, from := last + 1, View();
      }
    }

    /** The next turn of a loop that began in the state `start`. */
    method NextTurn(worker: Uuid, turn: Turn, ghost start: Sys, ghost before: seq<Step>, ghost d: int)
        returns (stopped: Option<Exit>, ghost run: seq<Step>)
      requires Underway(start, before, View(), worker, d)
      modifies this
      ensures stopped.None? ==>
        Underway(start, run, View(), worker, d) && Further(old(View()), View(), d) && turn.failing.None?
      ensures stopped.Some? ==>
        IsOver(start, run, View(), worker) && TurnEnded(old(View()), worker, turn, stopped.value, View())
    {
      ghost var from, taken := View(), [];
      RunReady(start, before, from, d);
      stopped, taken := TakeTurn(worker, turn, d);
      ReachesThen(start, before, from, taken, View());
      run := before + taken;
      InTime(start, run, View());
    }

    /** One turn of the loop. */
    method TakeTurn(worker: Uuid, turn: Turn, ghost d: int) returns (stopped: Option<Exit>, ghost run: seq<Step>)
      requires Ready(View(), d) && worker !in attempts
      modifies this
      ensures Leads(old(View()), run, View(), d) && Ready(View(), d) && worker !in attempts
      ensures stopped.None? ==> Further(old(View()), View(), d) && TurnWorked(old(View()), worker, turn)
      ensures stopped.Some? ==> TurnEnded(old(View()), worker, turn, stopped.value, View())
    {
      ghost var s := View();
      var picked, row;
      picked, row, run := PickSubscriberNotificationForProcessing(worker, turn, d);
      if picked.Err? {
        FailedPick(s, worker, turn, row, picked.error, View());
        return Some(Broken(picked.error)), run;
      }
      if picked.value.None? {
        EmptyPick(s, worker, turn, row, View());
        return Some(if row.None? then NothingQueued else RowGone(row.value)), run;
      }
      ghost var t := View();
      GoodPick(s, worker, turn, row, picked.value.value, t);
      var written;
      ghost var rest, endedAt;
      written, rest, endedAt := Process(worker, turn, s, d);
      LeadsThen(s, run, t, rest, View(), d);
      run := run + rest;
      if written {
        stopped := None;
      } else {
        stopped := Some(Broken(Writing));
      }
    }

    /**
     `pick_subscriber_notification_for_processing`: an UPDATE and a SELECT, with others before each. It gives nothing
     if and only if no row was queued for the UPDATE, or the row it took was gone for the SELECT.
     */
    method PickSubscriberNotificationForProcessing(worker: Uuid, turn: Turn, ghost d: int)
        returns (picked: Result<Option<Uuid>, Statement>, row: Option<Uuid>, ghost run: seq<Step>)
      requires Ready(View(), d) && worker !in attempts
      modifies this
      ensures Leads(old(View()), run, View(), d) && Ready(View(), d)
      ensures PicksRightly(old(View()), worker, turn, row, picked, View())
      ensures worker in attempts <==> picked.Ok? && picked.value.Some?
      ensures worker in attempts ==>
        && attempts[worker].delivery == row.value && attempts[worker].verdict.None?
        && old(now) <= attempts[worker].pickedAt && OpenOrFurther(old(View()), View(), row.value, d)
    {
      ghost var s := View();
      Interfere(worker, turn.beforePick);
      run := OthersLead(s, worker, turn.beforePick, 0, d);
      if turn.failing == Some(Picking) {
        return Err(Picking), None, run;
      }
      ghost var t := View();
      row := PickRow(worker);
      if row.None? {
        return Ok(None), None, run;
      }
      ghost var u := View();
      run := PickLeads(s, run, t, worker, row.value, d);
      ghost var reading;
      picked, reading := ReadPicked(worker, turn, s, d);
      LeadsThen(s, run, u, reading, View(), d);
      run := run + reading;
    }

    /** The second statement of a pick, and what others do before it; the turn began in the state `s`. */
    method ReadPicked(worker: Uuid, turn: Turn, ghost s: Sys, ghost d: int)
        returns (picked: Result<Option<Uuid>, Statement>, ghost run: seq<Step>)
      requires Ready(View(), d) && worker in attempts
      requires OpenOrFurther(s, View(), attempts[worker].delivery, d)
      modifies this
      ensures Leads(old(View()), run, View(), d) && Ready(View(), d)
      ensures ReadsRightly(Others(old(View()), worker, turn.beforeRead), worker, turn, old(attempts)[worker].delivery,
                           picked, View())
      ensures worker in attempts <==> picked.Ok? && picked.value.Some?
      ensures worker in attempts ==>
        attempts[worker] == old(attempts)[worker] && OpenOrFurther(s, View(), attempts[worker].delivery, d)
    {
      ghost var t := View();
      var row := attempts[worker].delivery;
      Interfere(worker, turn.beforeRead);
      run := OthersLead(t, worker, turn.beforeRead, row, d);
      ghost var u := View();
      StillOpenOrFurther(s, t, u, row, d);
      var found := false;
      if turn.failing == Some(Reading) {
        Perform(StepCrash(worker));
        picked := Err(Reading);
      } else {
        found := ReadRow(worker);
        picked := Ok(if found then Some(row) else None);
      }
      if !found {
        run := ThenStep(t, run, u, StepCrash(worker), row, d);
      }
    }

    /**
     The rest of a turn that began in the state `s`, from the row that was read to the write of its outcome, however
     long it takes. The row, if it still exists, then says published exactly when publishing succeeded, failed exactly
     when it did not and the give-up time was over when the attempt ended, and is queued again otherwise; and the loop
     is further than when the turn began.
     */
    method Process(worker: Uuid, turn: Turn, ghost s: Sys, ghost d: int)
        returns (written: bool, ghost run: seq<Step>, ghost endedAt: int)
      requires Ready(View(), d) && worker in attempts && attempts[worker].verdict.None?
      requires s.now <= attempts[worker].pickedAt && OpenOrFurther(s, View(), attempts[worker].delivery, d)
      modifies this
      ensures Leads(old(View()), run, View(), d) && Ready(View(), d)
      ensures worker !in attempts && (written <==> turn.failing != Some(Writing))
      ensures written ==> Further(s, View(), d)
      ensures old(now) <= endedAt <= now
      ensures
        var a := old(attempts)[worker];
        written && a.delivery in deliveries ==>
          && deliveries[a.delivery].status == Verdict(a, turn.delivers, endedAt)
          && deliveries[a.delivery].updatedAt == now
    {
      ghost var t, row := View(), attempts[worker].delivery;
      Interfere(worker, turn.beforeEnd);
      run := OthersLead(t, worker, turn.beforeEnd, row, d);
      StillOpenOrFurther(s, t, View(), row, d);
      ghost var u := View();
      var status, ending := End(worker, turn.delivers, s, d);
      LeadsThen(t, run, u, ending, View(), d);
      run := run + ending;
      u, endedAt := View(), now;
      ghost var settling;
      written, settling := Settle(worker, status, turn, s, d);
      LeadsThen(t, run, u, settling, View(), d);
      run := run + settling;
    }

    /** The outcome is written some time after it is known, unless the write fails and the outcome is lost. */
    method Settle(worker: Uuid, status: Status, turn: Turn, ghost s: Sys, ghost d: int)
        returns (written: bool, ghost run: seq<Step>)
      requires Ready(View(), d) && worker in attempts && attempts[worker].verdict == Some(status)
      requires OpenOrFurther(s, View(), attempts[worker].delivery, d)
      requires status == Queued ==> Further(s, View(), d)
      modifies this
      ensures Leads(old(View()), run, View(), d) && Ready(View(), d) && worker !in attempts
      ensures (written <==> turn.failing != Some(Writing)) && (written ==> Further(s, View(), d))
      ensures
        var id := old(attempts)[worker].delivery;
        written && id in deliveries ==> deliveries[id].status == status && deliveries[id].updatedAt == now
    {
      ghost var t, row := View(), attempts[worker].delivery;
      Interfere(worker, turn.beforeWrite);
      run := OthersLead(t, worker, turn.beforeWrite, row, d);
      ghost var u := View();
      StillOpenOrFurther(s, t, u, row, d);
      if status == Queued {
        FurtherThen(s, t, u, d);
      }
      written := turn.failing != Some(Writing);
      if written {
        Write(worker, status, s, d);
      } else {
        Perform(StepCrash(worker));
      }
      run := ThenStep(t, run, u, if written then StepRecord(worker) else StepCrash(worker), row, d);
    }

    /** The write itself, after which the loop is further than in `s`. */
    method Write(worker: Uuid, status: Status, ghost s: Sys, ghost d: int)
      requires VerdictsKnown(View()) && Enabled(View(), StepRecord(worker)) && attempts[worker].verdict == Some(status)
      requires OpenOrFurther(s, View(), attempts[worker].delivery, d)
      requires status == Queued ==> Further(s, View(), d)
      modifies this
      ensures View() == Next(old(View()), StepRecord(worker)) && worker !in attempts && Further(s, View(), d)
      ensures
        var id := old(attempts)[worker].delivery;
        id in deliveries ==> deliveries[id].status == status && deliveries[id].updatedAt == now
    {
      WriteGoesFurther(s, View(), worker, d);
      UpdateMessageProcessingStatus(worker, status);
    }

    /** A failure takes at least one unit of time. */
    method TakeTime(worker: Uuid, ok: bool, ghost d: int) returns (ghost run: seq<Step>)
      requires Ready(View(), d) && worker in attempts
      modifies this
      ensures Leads(old(View()), run, View(), d) && Ready(View(), d)
      ensures ClosedForLess(old(View()), View(), old(attempts)[worker].delivery, d)
      ensures View() == old(View()).(now := now) && TakesTime(View(), StepEnd(worker, ok))
    {
      ghost var s := View();
      if !ok && now == attempts[worker].pickedAt {
        Perform(StepPass(now + 1));
        run := [StepPass(s.now + 1)];
        StepLeads(s, run[0], attempts[worker].delivery, d);
      } else {
        run := [];
      }
    }

    /** Publishing ends. */
    method End(worker: Uuid, ok: bool, ghost s: Sys, ghost d: int) returns (status: Status, ghost run: seq<Step>)
      requires Ready(View(), d) && worker in attempts && attempts[worker].verdict.None?
      requires s.now <= attempts[worker].pickedAt && OpenOrFurther(s, View(), attempts[worker].delivery, d)
      modifies this
      ensures Leads(old(View()), run, View(), d) && Ready(View(), d)
      ensures worker in attempts && attempts[worker] == old(attempts)[worker].(verdict := Some(status))
      ensures OpenOrFurther(s, View(), attempts[worker].delivery, d) && (status == Queued ==> Further(s, View(), d))
      ensures status == Verdict(old(attempts)[worker], ok, now)
    {
      ghost var t, row := View(), attempts[worker].delivery;
      run := TakeTime(worker, ok, d);
      ghost var u := View();
      StillOpenOrFurther(s, t, u, row, d);
      status := EndAttempt(worker, ok);
      run := ThenStep(t, run, u, StepEnd(worker, ok), row, d);
      StillOpenOrFurther(s, u, View(), row, d);
      if status == Queued {
        FailureTakesTime(s, u, worker, ok, d);
      }
    }

    /**
     A turn can end the loop with rows left in the queue. The only queued row is picked, and before it is read its
     subscriber leaves, and another row, whose lease had run out, is put back into the queue. The turn ends the loop as
     if the queue were empty.
     */
    method TurnEndsEarly(worker: Uuid, row: Uuid, other: Uuid) returns (stopped: Option<Exit>)
      requires Sound(View()) && worker !in attempts
      requires row in deliveries && other in deliveries && deliveries[row].subscriber != deliveries[other].subscriber
      requires OnlyQueued(View(), row)
      requires deliveries[other].status == Processing && deliveries[other].updatedAt + PUBLISHING_TIMEOUT < now
      modifies this
      ensures stopped == Some(RowGone(row))
      ensures row !in deliveries && other in deliveries && deliveries[other].status == Queued
    {
      ghost var s := View();
      var leave, sweep := StepUnsubscribe(deliveries[row].subscriber), StepSweep(now - PUBLISHING_TIMEOUT);
      var turn := Turn(true, None, [], [leave, sweep], [], []);
      RowHasNotification(s, row);
      RowHasSubscriber(s, row);
      ReadsNothing(s, worker, row, other, turn);
      ghost var run;
      ghost var d := SomeDeadline(s);
      stopped, run := TakeTurn(worker, turn, d);
      NoWork(s, worker, turn, row);
      OnlyPick(s, worker, turn, row, stopped.value, View());
    }
  }

  lemma InTime(s: Sys, run: seq<Step>, t: Sys)
    requires Reaches(s, run, t)
    ensures SafeIfTimely(s, run, t)
  {
    if Safe(s) && Stamped(s) && IsTimelyRun(s, run) {
      OnTime(s, run, t);
    }
  }

  /** What the row that is picked and the other one are when it is read. */
  lemma ReadsNothing(s: Sys, worker: Uuid, row: Uuid, other: Uuid, turn: Turn)
    requires worker !in s.attempts && row in s.deliveries && other in s.deliveries
    requires s.deliveries[row].notification in s.notifications && s.deliveries[row].subscriber in s.subscribers
    requires s.deliveries[row].subscriber != s.deliveries[other].subscriber && s.deliveries[row].status == Queued
    requires s.deliveries[other].status == Processing && s.deliveries[other].updatedAt + PUBLISHING_TIMEOUT < s.now
    requires turn.beforePick == []
    requires turn.beforeRead == [StepUnsubscribe(s.deliveries[row].subscriber), StepSweep(s.now - PUBLISHING_TIMEOUT)]
    ensures Enabled(s, StepPick(worker, row))
    ensures
      var read := WhenRead(s, worker, turn, row);
      row !in read.deliveries && other in read.deliveries && read.deliveries[other].status == Queued
  {
    LeftAndSwept(Next(s, StepPick(worker, row)), worker, row, other, turn.beforeRead[0], turn.beforeRead[1]);
  }

  lemma LeftAndSwept(s: Sys, worker: Uuid, row: Uuid, other: Uuid, leave: Step, sweep: Step)
    requires row in s.deliveries && other in s.deliveries
    requires s.deliveries[row].subscriber != s.deliveries[other].subscriber
    requires s.deliveries[other].status == Processing && s.deliveries[other].updatedAt + PUBLISHING_TIMEOUT < s.now
    requires leave == StepUnsubscribe(s.deliveries[row].subscriber) && leave.subscriber in s.subscribers
    requires sweep == StepSweep(s.now - PUBLISHING_TIMEOUT)
    ensures
      var t := Others(s, worker, [leave, sweep]);
      row !in t.deliveries && other in t.deliveries && t.deliveries[other].status == Queued
  {
    TwoOthers(s, worker, leave, sweep);
  }

  lemma RowHasSubscriber(s: Sys, row: Uuid)
    requires Consistent(s) && row in s.deliveries
    ensures s.deliveries[row].subscriber in s.subscribers
  {
  }

  lemma TwoOthers(s: Sys, worker: Uuid, first: Step, second: Step)
    requires Allowed(s, worker, first) && Allowed(Next(s, first), worker, second)
    ensures Others(s, worker, [first, second]) == Next(Next(s, first), second)
  {
    var t := Next(s, first);
    assert [first, second][1..] == [second] && [second][1..] == [];
    assert Others(t, worker, [second]) == Others(Next(t, second), worker, []);
  }

  ghost predicate OnlyQueued(s: Sys, row: Uuid) {
    forall id :: id in s.deliveries ==> (s.deliveries[id].status == Queued <==> id == row)
  }

  /** When the only queued row is gone by the time it is read, the turn does no work, and ends the loop for that. */
  lemma NoWork(s: Sys, worker: Uuid, turn: Turn, row: Uuid)
    requires turn.beforePick == [] && Enabled(s, StepPick(worker, row)) && OnlyQueued(s, row)
    requires row !in WhenRead(s, worker, turn, row).deliveries
    ensures !TurnWorked(s, worker, turn)
  {
    assert Others(s, worker, turn.beforePick) == s;
  }

  lemma OnlyPick(s: Sys, worker: Uuid, turn: Turn, row: Uuid, exit: Exit, next: Sys)
    requires turn.beforePick == [] && turn.failing.None? && Enabled(s, StepPick(worker, row)) && OnlyQueued(s, row)
    requires row !in WhenRead(s, worker, turn, row).deliveries && TurnEnded(s, worker, turn, exit, next)
    ensures exit == RowGone(row) && next.deliveries == WhenRead(s, worker, turn, row).deliveries
  {
    assert s.deliveries[row].status == Queued && Others(s, worker, turn.beforePick) == s;
    match exit
    case NothingQueued =>
    case RowGone(r) =>
    case Broken(_) =>
  }

  lemma {:induction false} UpsertDeliveriesSnoc(
      s: Sys, notification: Uuid, targets: seq<Uuid>, ids: seq<Uuid>, target: Uuid, id: Uuid)
    requires |targets| == |ids|
    ensures UpsertDeliveries(s, notification, targets + [target], ids + [id])
         == UpsertDelivery(UpsertDeliveries(s, notification, targets, ids), notification, target, id)
    decreases |ids|
  {
    if ids == [] {
      var one := UpsertDelivery(s, notification, target, id);
      assert UpsertDeliveries(one, notification, [target][1..], [id][1..]) == one;
      assert targets + [target] == [target] && ids + [id] == [id];
    } else {
      assert (targets + [target])[1..] == targets[1..] + [target] && (ids + [id])[1..] == ids[1..] + [id];
      UpsertDeliveriesSnoc(UpsertDelivery(s, notification, targets[0], ids[0]), notification,
                           targets[1..], ids[1..], target, id);
    }
  }

  lemma OthersKeepAttempt(s: Sys, step: Step, worker: Uuid)
    requires Enabled(s, step) && AddsNoRows(step) && !IsOwnStep(worker, step)
    ensures worker in Next(s, step).attempts <==> worker in s.attempts
    ensures worker in s.attempts ==> Next(s, step).attempts[worker] == s.attempts[worker]
    ensures !step.StepPass? ==> Next(s, step).now == s.now
  {
  }

  // ----- A picked row that is gone -----

  /**
   A loop can end well with rows left in the queue: for any worker, picked row and other queued row, the picked row's
   subscriber may unsubscribe before the row is read. The worker then finds nothing and stops, and the other row is
   queued as before.
   */
  lemma GoneRowLeavesQueue(s: Sys, worker: Uuid, row: Uuid, other: Uuid)
    requires Enabled(s, StepPick(worker, row)) && s.deliveries[row].subscriber in s.subscribers
    requires other in s.deliveries && s.deliveries[other].status == Queued
    requires s.deliveries[other].subscriber != s.deliveries[row].subscriber
    ensures
      var steps := [StepPick(worker, row), StepUnsubscribe(s.deliveries[row].subscriber), StepCrash(worker)];
      && IsRun(s, steps) && IsTimelyRun(s, steps)
      && row !in After(s, steps).deliveries && worker !in After(s, steps).attempts
      && other in After(s, steps).deliveries && After(s, steps).deliveries[other] == s.deliveries[other]
  {
    var subscriber := s.deliveries[row].subscriber;
    var picked := Next(s, StepPick(worker, row));
    var left := Next(picked, StepUnsubscribe(subscriber));
    var steps := Prepend(left, StepCrash(worker), Next(left, StepCrash(worker)), []);
    steps := Prepend(picked, StepUnsubscribe(subscriber), left, steps);
    steps := Prepend(s, StepPick(worker, row), picked, steps);
    assert steps == [StepPick(worker, row), StepUnsubscribe(subscriber), StepCrash(worker)];
  }

  const EARLY_CONTENT := Content(3, "title", "body", None, None)

  /** One notification for two subscribers. */
  const BEFORE_ENQUEUE :=
    Initial(0).(subscribers := {5, 6}, notifications := map[10 := Notification(1, "n", EARLY_CONTENT, 0)])

  const TWO_QUEUED := BEFORE_ENQUEUE.(
    deliveries := map[100 := Delivery(10, 5, Queued, 0, 0), 101 := Delivery(10, 6, Queued, 0, 0)],
    origin := map[100 := (10, 5), 101 := (10, 6)])

  lemma EnqueueTwo()
    ensures UpsertDeliveries(BEFORE_ENQUEUE, 10, [5, 6], [100, 101]) == TWO_QUEUED
  {
    var one := UpsertDelivery(BEFORE_ENQUEUE, 10, 5, 100);
    assert one == BEFORE_ENQUEUE.(deliveries := map[100 := Delivery(10, 5, Queued, 0, 0)],
                                  origin := map[100 := (10, 5)]);
    assert UpsertDelivery(one, 10, 6, 101) == TWO_QUEUED;
    assert [5, 6][1..] == [6] && [100, 101][1..] == [101] && [6][1..] == [] && [101][1..] == [];
    assert UpsertDeliveries(one, 10, [6], [101]) == UpsertDeliveries(TWO_QUEUED, 10, [], []);
  }

  lemma ReachTwoQueued() returns (steps: seq<Step>)
    ensures IsTimelyRun(Initial(0), steps) && IsRun(Initial(0), steps)
    ensures After(Initial(0), steps) == TWO_QUEUED
  {
    EnqueueTwo();
    var s1 := Initial(0).(subscribers := {5});
    var s2 := Initial(0).(subscribers := {5, 6});
    steps := Prepend(BEFORE_ENQUEUE, StepEnqueue(10, [5, 6], [100, 101]), TWO_QUEUED, []);
    steps := Prepend(s2, StepNotify(1, "n", EARLY_CONTENT, 10), BEFORE_ENQUEUE, steps);
    steps := Prepend(s1, StepSubscribe(6), s2, steps);
    steps := Prepend(Initial(0), StepSubscribe(5), s1, steps);
  }

  /** From the empty system: of two queued rows a worker picks one, which is gone when it is read; the other stays. */
  lemma LoopCanEndEarly() returns (lead: seq<Step>)
    ensures IsTimelyRun(Initial(0), lead) && IsRun(Initial(0), lead) && After(Initial(0), lead) == TWO_QUEUED
    ensures
      var steps := lead + [StepPick(1, 100), StepUnsubscribe(5), StepCrash(1)];
      && IsTimelyRun(Initial(0), steps) && IsRun(Initial(0), steps)
      && 1 !in After(Initial(0), steps).attempts && 100 !in After(Initial(0), steps).deliveries
      && 101 in After(Initial(0), steps).deliveries && After(Initial(0), steps).deliveries[101].status == Queued
  {
    lead := ReachTwoQueued();
    GoneRowLeavesQueue(TWO_QUEUED, 1, 100, 101);
    RunThenRun(Initial(0), lead, [StepPick(1, 100), StepUnsubscribe(5), StepCrash(1)]);
  }

  /** One row is queued, and another one is left processing by a worker that is gone, longer than its lease. */
  const STRANDED := TWO_QUEUED.(
    deliveries := map[100 := Delivery(10, 5, Queued, 0, 0), 101 := Delivery(10, 6, Processing, 0, 0)],
    now := PUBLISHING_TIMEOUT + 1)

  /** A turn can end early, as in TurnEndsEarly: the system reaches such a state. */
  lemma ReachStranded() returns (steps: seq<Step>)
    ensures IsTimelyRun(Initial(0), steps) && IsRun(Initial(0), steps) && After(Initial(0), steps) == STRANDED
    ensures Sound(STRANDED) && OnlyQueued(STRANDED, 100) && 1 !in STRANDED.attempts
    ensures STRANDED.deliveries[100].subscriber != STRANDED.deliveries[101].subscriber
    ensures STRANDED.deliveries[101].status == Processing
    ensures STRANDED.deliveries[101].updatedAt + PUBLISHING_TIMEOUT < STRANDED.now
  {
    var lead := ReachTwoQueued();
    var last := Strand();
    RunThenRun(Initial(0), lead, last);
    steps := lead + last;
    StrandedIsSound(steps);
  }

  lemma StrandedIsSound(steps: seq<Step>)
    requires IsRun(Initial(0), steps) && After(Initial(0), steps) == STRANDED
    ensures Sound(STRANDED)
  {
    InitialSafe(0);
    RunSound(Initial(0), steps);
  }

  lemma Strand() returns (steps: seq<Step>)
    ensures IsTimelyRun(TWO_QUEUED, steps) && IsRun(TWO_QUEUED, steps) && After(TWO_QUEUED, steps) == STRANDED
  {
    var rows := map[100 := Delivery(10, 5, Queued, 0, 0), 101 := Delivery(10, 6, Processing, 0, 0)];
    var picked := TWO_QUEUED.(deliveries := rows, attempts := map[2 := Attempt(101, 0, 0, None)]);
    var left := TWO_QUEUED.(deliveries := rows);
    steps := Prepend(left, StepPass(PUBLISHING_TIMEOUT + 1), STRANDED, []);
    steps := Prepend(picked, StepCrash(2), left, steps);
    steps := Prepend(TWO_QUEUED, StepPick(2, 101), picked, steps);
  }
}
