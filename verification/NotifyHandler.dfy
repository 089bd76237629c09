/**
 The notify handler over its state (src/services/public_http_server/handlers/notify_v1.rs): the tables of the
 publisher service, the subscribers of the projects, and the two families of rate limits, which have different
 limits and disjoint keys. Subscribers may leave between the statements of a request.
 */
module NotifyHandler {
  import opened Wrappers
  import opened Ordering
  import opened AccountId
  import opened Notify
  import TokenBucket
  import TokenBounds
  import RateLimiter
  import Queue
  import Publisher

  const PROJECT_LIMIT := TokenBucket.Limit(20, 1_000, 2)
  const SUBSCRIBER_LIMIT := TokenBucket.Limit(50, 3_600_000, 2)
  const SUBSCRIBER_NOTIFICATION_COUNT_LIMIT := 500

  datatype NotifyError = TooManyRequests(reset: int) | Invalid | TooManyNotifications | ProjectNotFound | Database

  // ----- New identifiers -----

  lemma SomeUnused(used: set<Uuid>) returns (id: Uuid)
    ensures id !in used
  {
    id := 0;
    var rest := used;
    while rest != {}
      invariant forall x :: x in used ==> x in rest || x < id
      decreases rest
    {
      var x :| x in rest;
      if x >= id {
        id := x + 1;
      }
      rest := rest - {x};
    }
  }

  /** `Uuid::new_v4` and the default of an id column: any identifier that was never used. */
  method NewUuid(used: set<Uuid>) returns (id: Uuid)
    ensures id !in used
  {
    ghost var unused := SomeUnused(used);
    assert exists x: Uuid :: x !in used;
    id := 0;
    while id in used
      invariant forall x: Uuid :: x < id ==> x in used
      decreases unused - id
    {
      id := id + 1;
    }
  }

  method NewUuids(n: nat, used: set<Uuid>) returns (ids: seq<Uuid>)
    ensures |ids| == n && Distinct(ids) && forall id :: id in ids ==> id !in used
  {
    ids := [];
    var taken := used;
    for i := 0 to n
      invariant |ids| == i && Distinct(ids) && used <= taken
      invariant forall id :: id in ids ==> id !in used && id in taken
    {
      var id := NewUuid(taken);
      ids := ids + [id];
      taken := taken + {id};
    }
  }

  // ----- Keys -----

  function ProjectKey(projectId: string): string {
    "notify-v1-" + projectId
  }

  /** `subscriber_rate_limit_key`, for a text form of identifiers. */
  function SubscriberKey(text: Uuid -> string, projectId: string): Uuid -> string {
    (id: Uuid) => "notify-v1-subscriber-" + projectId + ":" + text(id)
  }

  ghost predicate IsText(text: Uuid -> string) {
    forall a: Uuid, b: Uuid :: text(a) == text(b) ==> a == b
  }

  lemma KeysDiffer(text: Uuid -> string, projectId: string, a: Uuid, b: Uuid)
    requires IsText(text) && a != b
    ensures SubscriberKey(text, projectId)(a) != SubscriberKey(text, projectId)(b)
  {
    var lead := "notify-v1-subscriber-" + projectId + ":";
    assert (lead + text(a))[|lead|..] == text(a) && (lead + text(b))[|lead|..] == text(b);
  }

  lemma CutKeys(a: string, b: string, x: string, y: string)
    requires a + x == b + y && |x| == |y|
    ensures a == b && x == y
  {
    assert (a + x)[..|a|] == a && (b + y)[..|b|] == b;
    assert (a + x)[|a|..] == x && (b + y)[|b|..] == y;
  }

  /** Projects have buckets of their own. */
  lemma ProjectKeysDiffer(p: string, q: string)
    ensures ProjectKey(p) == ProjectKey(q) <==> p == q
  {
    assert ProjectKey(p)[|"notify-v1-"|..] == p && ProjectKey(q)[|"notify-v1-"|..] == q;
  }

  /** Subscribers have buckets of their own, in each project, since the text forms of identifiers are equally long. */
  lemma SubscriberKeysDiffer(text: Uuid -> string, p: string, q: string, a: Uuid, b: Uuid)
    requires IsText(text) && |text(a)| == |text(b)|
    ensures SubscriberKey(text, p)(a) == SubscriberKey(text, q)(b) <==> p == q && a == b
  {
    if SubscriberKey(text, p)(a) == SubscriberKey(text, q)(b) {
      CutKeys("notify-v1-subscriber-" + p + ":", "notify-v1-subscriber-" + q + ":", text(a), text(b));
      CutKeys("notify-v1-subscriber-" + p, "notify-v1-subscriber-" + q, ":", ":");
      assert ("notify-v1-subscriber-" + p)[|"notify-v1-subscriber-"|..] == p;
      assert ("notify-v1-subscriber-" + q)[|"notify-v1-subscriber-"|..] == q;
    }
  }

  /** The two families of keys meet only for a project whose identifier contains a colon. */
  lemma KeysMeetExactly(text: Uuid -> string, p: string, q: string, a: Uuid)
    ensures ProjectKey(p) == SubscriberKey(text, q)(a) <==> p == "subscriber-" + q + ":" + text(a)
  {
    var rest := "subscriber-" + q + ":" + text(a);
    assert "notify-v1-subscriber-" == "notify-v1-" + "subscriber-";
    assert SubscriberKey(text, q)(a) == "notify-v1-" + rest;
    assert ProjectKey(p)[|"notify-v1-"|..] == p && ("notify-v1-" + rest)[|"notify-v1-"|..] == rest;
  }

  // ----- Subscribers that leave -----

  /**
   Who unsubscribes while one notification of a body is handled: before its subscribers are queried, and between the
   query and the insert of their rows.
   */
  datatype Departures = Departures(beforeQuery: set<Uuid>, beforeInsert: set<Uuid>)

  ghost function Without(s: Queue.Sys, gone: set<Uuid>): Queue.Sys {
    s.(subscribers := s.subscribers - gone,
       retired := s.retired + gone * s.subscribers,
       deliveries := map id | id in s.deliveries && s.deliveries[id].subscriber !in gone :: s.deliveries[id])
  }

  /** Leaving is a run of unsubscribe steps, one for each of those who leave. */
  lemma {:induction false} LeavingIsRun(s: Queue.Sys, gone: set<Uuid>) returns (steps: seq<Queue.Step>)
    requires Queue.Consistent(s) && gone <= s.subscribers
    ensures Queue.IsRun(s, steps) && Queue.After(s, steps) == Without(s, gone)
    ensures forall step :: step in steps ==> step.StepUnsubscribe? && step.subscriber in gone
    ensures Queue.Consistent(Without(s, gone))
    decreases gone
  {
    if gone == {} {
      steps := [];
      assert Without(s, gone).deliveries == s.deliveries;
    } else {
      var one :| one in gone;
      var step := Queue.StepUnsubscribe(one);
      Queue.StepConsistent(s, step);
      var rest := LeavingIsRun(Queue.Next(s, step), gone - {one});
      LeavingOne(s, gone, one);
      steps := [step] + rest;
      assert steps[1..] == rest;
    }
  }

  lemma LeavingOne(s: Queue.Sys, gone: set<Uuid>, one: Uuid)
    requires one in gone && gone <= s.subscribers
    ensures Without(Queue.Unsubscribe(s, one), gone - {one}) == Without(s, gone)
  {
    var a, b := Without(Queue.Unsubscribe(s, one), gone - {one}), Without(s, gone);
    assert a.deliveries == b.deliveries && a.subscribers == b.subscribers && a.retired == b.retired;
  }

  lemma WithoutConsistent(s: Queue.Sys, gone: set<Uuid>)
    requires Queue.Consistent(s)
    ensures Queue.Consistent(Without(s, gone))
  {
    var steps := LeavingIsRun(s, gone * s.subscribers);
    var a, b := Without(s, gone * s.subscribers), Without(s, gone);
    assert a.deliveries == b.deliveries && a.subscribers == b.subscribers && a.retired == b.retired;
  }

  // ----- What a notification leaves behind -----

  /** Rows of those who stay are as they were. */
  ghost predicate DeliveriesKept(before: map<Uuid, Queue.Delivery>, after: Queue.Sys) {
    forall id :: id in before && before[id].subscriber in after.subscribers ==>
      id in after.deliveries && after.deliveries[id] == before[id]
  }

  /** Rows are only added, and the new ones are queued, for these subscribers. */
  ghost predicate OnlyAddsFor(before: map<Uuid, Queue.Delivery>, after: Queue.Sys, notification: Uuid, ids: set<Uuid>) {
    && DeliveriesKept(before, after)
    && (forall id :: id in after.deliveries && id in before ==> after.deliveries[id] == before[id])
    && (forall id :: id in after.deliveries && id !in before ==>
          && after.deliveries[id].notification == notification && after.deliveries[id].subscriber in ids
          && after.deliveries[id].status == Queue.Queued)
  }

  ghost predicate NewIds(before: Queue.Sys, after: Queue.Sys) {
    forall id :: id in after.deliveries && id !in before.deliveries ==> id !in before.origin
  }

  /** Rows that are added after some have left are added to those before, since no identifier is used again. */
  lemma AddedAfterLeaving(before: Queue.Sys, gone: set<Uuid>, after: Queue.Sys, notification: Uuid, ids: set<Uuid>)
    requires Queue.Consistent(before) && after.subscribers <= before.subscribers - gone
    requires OnlyAddsFor(Without(before, gone).deliveries, after, notification, ids)
    requires NewIds(Without(before, gone), after)
    ensures OnlyAddsFor(before.deliveries, after, notification, ids) && NewIds(before, after)
  {
    var mid := Without(before, gone);
    forall id | id in after.deliveries && id !in mid.deliveries ensures id !in before.deliveries {
      assert id !in before.origin;
    }
  }

  type Buckets = map<string, TokenBucket.Cell>

  /**
   What happened to the targets of one notification: the subscribers at the time of the query, how they were sorted,
   and the subscriber buckets before and after.
   */
  datatype Outcome = Outcome(notification: Uuid, kind: Uuid, rows: map<Uuid, Row>, found: seq<Target>,
                             sent: seq<Target>, unsubscribed: seq<Target>, limited: seq<Target>, before: Buckets,
                             after: Buckets)

  /** Whether there are limits, how subscriber keys are written, and the time of the request. */
  datatype Limiting = Limiting(redis: bool, key: Uuid -> string, now: int)

  ghost function IdsOf(targets: seq<Target>): set<Uuid> {
    set t | t in targets :: t.id
  }

  lemma IdsAre(targets: seq<Target>, ids: seq<Uuid>)
    requires |ids| == |targets| && forall i :: 0 <= i < |targets| ==> ids[i] == targets[i].id
    ensures Elements(ids) == IdsOf(targets)
  {
    forall id ensures id in ids <==> id in IdsOf(targets) {
      if id in ids {
        var i :| 0 <= i < |ids| && ids[i] == id;
        assert targets[i] in targets;
      }
    }
  }

  /** Who has left when notification `j` of a body begins. */
  ghost function GoneBy(departures: nat -> Departures, j: nat): set<Uuid> {
    if j == 0 then
      {}
    else
      GoneBy(departures, j - 1) + departures(j - 1).beforeQuery + departures(j - 1).beforeInsert
  }

  /** Notification `j` saw the subscribers that had not left. */
  ghost predicate SawRows(rows: map<Uuid, Row>, departures: nat -> Departures, j: nat, out: Outcome) {
    out.rows == rows - GoneBy(departures, j) - departures(j).beforeQuery
  }

  lemma LeftThen(rows: map<Uuid, Row>, departures: nat -> Departures, j: nat, before: map<Uuid, Row>,
                 after: map<Uuid, Row>, out: Outcome)
    requires before == rows - GoneBy(departures, j) && out.rows == before - departures(j).beforeQuery
    requires after == before - departures(j).beforeQuery - departures(j).beforeInsert
    ensures SawRows(rows, departures, j, out) && after == rows - GoneBy(departures, j + 1)
    ensures after == before - (departures(j).beforeQuery + departures(j).beforeInsert)
  {
  }

  lemma DroppedOutExactly(out: Outcome, departing: Departures, staying: set<Uuid>)
    requires IdsOf(out.sent) <= out.rows.Keys && staying == out.rows.Keys - departing.beforeInsert
    ensures IdsOf(out.sent) <= staying <==> !DroppedOut(departing, out)
  {
    if IdsOf(out.sent) <= staying {
      forall t | t in out.sent ensures t.id !in departing.beforeInsert {
        assert t.id in IdsOf(out.sent);
      }
    }
  }

  /** Someone who was to be sent to left before the rows were inserted. */
  ghost predicate DroppedOut(departing: Departures, out: Outcome) {
    exists t :: t in out.sent && t.id in departing.beforeInsert
  }

  ghost predicate NotificationsKept(before: map<Uuid, Queue.Notification>, after: map<Uuid, Queue.Notification>) {
    forall id :: id in before ==> id in after && after[id] == before[id]
  }

  /** Everyone sent to has a row, unless they have left. */
  ghost predicate HaveRows(view: Queue.Sys, notification: Uuid, sent: seq<Target>) {
    forall t :: t in sent && t.id in view.subscribers ==> Queue.HasDelivery(view, notification, t.id)
  }

  /** The notification is stored under the requested key. */
  ghost predicate IsStored(notifications: map<Uuid, Queue.Notification>, project: Uuid, item: NotifyBodyNotification,
                           out: Outcome)
  {
    && out.notification in notifications && notifications[out.notification].project == project
    && notifications[out.notification].content.kind == out.kind
    && (item.notificationId.Some? ==>
          notifications[out.notification].notificationId == item.notificationId.value)
  }

  /** A notification stored just now has the requested content. */
  ghost predicate IsNew(stored: Queue.Notification, content: Queue.Content, now: int) {
    stored.content == content && stored.createdAt == now
  }

  /** The subscribers that were found are the right ones, and those sent to have not failed. */
  ghost predicate FoundRight(project: Uuid, accounts: seq<string>, out: Outcome) {
    && Sliceable(accounts)
    && FoundFor(out.rows, Matching(out.rows, project, accounts), accounts, out.found)
    && Apart(out)
  }

  ghost predicate Apart(out: Outcome) {
    && (forall t :: t in out.sent ==> t !in out.unsubscribed && t !in out.limited)
    && (forall t :: t in out.unsubscribed ==> t !in out.limited)
  }

  ghost predicate HasToken(cells: map<string, TokenBucket.Cell>, key: string, now: int)
    requires RateLimiter.AllBounded(SUBSCRIBER_LIMIT, cells)
  {
    TokenBucket.Admits(SUBSCRIBER_LIMIT, RateLimiter.CellIn(cells, key), TokenBucket.Call(now))
  }

  /** With distinct keys the answer for each one says whether its own bucket had a token, and only they change. */
  lemma VerdictsAreTokens(before: Buckets, after: Buckets, keys: seq<string>, now: int,
                          verdicts: map<string, TokenBucket.Verdict>)
    requires RateLimiter.AllBounded(SUBSCRIBER_LIMIT, before) && Distinct(keys)
    requires RateLimiter.ScriptEffect(SUBSCRIBER_LIMIT, keys, now, before, after, verdicts)
    ensures forall key :: key in keys ==>
      key in verdicts && (verdicts[key].Admitted() <==> HasToken(before, key, now))
    ensures forall key: string :: RateLimiter.CellIn(after, key) == CalledIf(key in keys, before, key, now)
  {
    RateLimiter.DistinctKeysAreIndependent(SUBSCRIBER_LIMIT, keys, now, before, after, verdicts);
  }

  /** The bucket of a key, after one call if there is one. */
  ghost function CalledIf(called: bool, cells: Buckets, key: string, now: int): TokenBucket.Cell
    requires RateLimiter.AllBounded(SUBSCRIBER_LIMIT, cells)
  {
    var cell := RateLimiter.CellIn(cells, key);
    if called then TokenBucket.Apply(SUBSCRIBER_LIMIT, cell, TokenBucket.Call(now)) else cell
  }

  ghost function KeysOf(targets: set<Target>, key: Uuid -> string): set<string> {
    set t | t in targets :: key(t.id)
  }

  lemma KeysAre(valid: seq<Target>, key: Uuid -> string, keys: seq<string>)
    requires |keys| == |valid| && forall i :: 0 <= i < |keys| ==> keys[i] == key(valid[i].id)
    ensures forall k :: k in keys <==> k in KeysOf((set t | t in valid), key)
    ensures forall i :: 0 <= i < |valid| ==> key(valid[i].id) in keys
  {
    forall k ensures k in keys <==> k in KeysOf((set t | t in valid), key) {
      if k in keys {
        var i :| 0 <= i < |keys| && keys[i] == k;
        assert valid[i] in valid;
      }
    }
    forall i | 0 <= i < |valid| ensures key(valid[i].id) in keys {
      assert keys[i] == key(valid[i].id);
    }
  }

  /** One call for each of these targets, if there are limits, and no other. */
  ghost predicate OneCallEach(l: Limiting, targets: set<Target>, before: Buckets, after: Buckets)
    requires RateLimiter.AllBounded(SUBSCRIBER_LIMIT, before)
  {
    forall k: string ::
      RateLimiter.CellIn(after, k) == CalledIf(l.redis && k in KeysOf(targets, l.key), before, k, l.now)
  }

  ghost function Checked(found: seq<Target>, unsubscribed: seq<Target>): set<Target> {
    set t | t in found && t !in unsubscribed
  }

  /**
   Not subscribed are those without this type in their scope. The others make one call each, and sent to are those
   whose bucket had a token.
   */
  ghost predicate SortedRight(l: Limiting, out: Outcome) {
    && RateLimiter.AllBounded(SUBSCRIBER_LIMIT, out.before)
    && (forall t :: t in out.found ==>
          && (t in out.unsubscribed <==> !Subscribed(out.rows, out.kind, t))
          && (t in out.sent <==>
                Subscribed(out.rows, out.kind, t) && (!l.redis || HasToken(out.before, l.key(t.id), l.now))))
    && OneCallEach(l, Checked(out.found, out.unsubscribed), out.before, out.after)
  }

  /** The table has, for every matching row, a requested account of the same address. */
  ghost predicate Answers(rows: map<Uuid, Row>, matching: set<Uuid>, accounts: seq<string>, table: map<string, string>)
  {
    forall id :: id in matching ==>
      && id in rows && GetAddressFromAccount(rows[id].account).Some?
      && Address(rows[id].account) in table
      && IsMatch(rows, matching, accounts, Target(id, table[Address(rows[id].account)]))
  }

  lemma TableAnswers(h: Digest, rows: map<Uuid, Row>, project: Uuid, accounts: seq<string>, table: map<string, string>)
    requires AllAccounts(h, accounts) && Sliceable(accounts) && RowsGood(h, rows) && IsLookupTable(accounts, table)
    ensures Answers(rows, Matching(rows, project, accounts), accounts, table)
  {
    var matching := Matching(rows, project, accounts);
    forall id | id in matching
      ensures GetAddressFromAccount(rows[id].account).Some? && Address(rows[id].account) in table
      ensures IsMatch(rows, matching, accounts, Target(id, table[Address(rows[id].account)]))
    {
      MatchIsInTable(h, rows, project, accounts, table, id);
    }
  }

  /** What the agreement of the two notions of an address gives the handler. */
  ghost predicate AddressesAgree(rows: map<Uuid, Row>, project: Uuid, accounts: seq<string>) {
    && Sliceable(accounts)
    && forall table :: IsLookupTable(accounts, table) ==>
      Answers(rows, Matching(rows, project, accounts), accounts, table)
  }

  lemma AccountsAgree(h: Digest, rows: map<Uuid, Row>, project: Uuid, accounts: seq<string>)
    requires AllAccounts(h, accounts) && RowsGood(h, rows)
    ensures AddressesAgree(rows, project, accounts)
  {
    AccountsSliceable(h, accounts);
    forall table | IsLookupTable(accounts, table)
      ensures Answers(rows, Matching(rows, project, accounts), accounts, table)
    {
      TableAnswers(h, rows, project, accounts, table);
    }
  }

  /** The rows of the query, each with the account by which it was requested: the lookup never panics. */
  method FoundTargets(rows: map<Uuid, Row>, matching: set<Uuid>, ghost accounts: seq<string>,
                      table: map<string, string>)
      returns (found: seq<Target>)
    requires Answers(rows, matching, accounts, table)
    ensures FoundFor(rows, matching, accounts, found)
  {
    var ids := InSomeOrder(matching);
    found := [];
    for i := 0 to |ids|
      invariant |found| == i && forall j :: 0 <= j < i ==> found[j].id == ids[j]
      invariant forall t :: t in found ==> IsMatch(rows, matching, accounts, t)
    {
      assert ids[i] in Elements(ids);
      found := found + [Target(ids[i], table[Address(rows[ids[i]].account)])];
    }
    forall id | id in matching ensures exists t :: t in found && t.id == id {
      assert id in Elements(ids);
      var j :| 0 <= j < |ids| && ids[j] == id;
      assert found[j] in found;
    }
  }

  /** Without limits a matching subscriber of the type is sent to. */
  lemma IsSentTo(l: Limiting, project: Uuid, accounts: seq<string>, out: Outcome, id: Uuid)
    requires FoundRight(project, accounts, out) && SortedRight(l, out) && !l.redis
    requires id in Matching(out.rows, project, accounts) && out.kind in out.rows[id].scope
    ensures exists t :: t in out.sent && t.id == id
  {
    var t :| t in out.found && t.id == id;
    assert Subscribed(out.rows, out.kind, t);
  }

  /** Some requested account has the address of this one. */
  ghost predicate IsRequested(accounts: seq<string>, account: string) {
    exists i :: 0 <= i < |accounts| && IsSameAddress(accounts[i], account) == Some(true)
  }

  lemma RequestedExactly(h: Digest, rows: map<Uuid, Row>, project: Uuid, accounts: seq<string>, id: Uuid)
    requires AllAccounts(h, accounts) && Sliceable(accounts) && RowsGood(h, rows) && id in rows
    ensures id in Matching(rows, project, accounts)
       <==> rows[id].project == project && IsRequested(accounts, rows[id].account)
  {
    forall i | 0 <= i < |accounts|
      ensures Lower(Address(accounts[i])) == GetAddressLower(rows[id].account)
         <==> IsSameAddress(accounts[i], rows[id].account) == Some(true)
    {
      AddressAgreement(h, accounts[i], rows[id].account);
    }
  }

  lemma TokenExactly(cells: Buckets, key: string, now: int)
    requires RateLimiter.AllBounded(SUBSCRIBER_LIMIT, cells)
    ensures HasToken(cells, key, now) <==>
      TokenBucket.Available(SUBSCRIBER_LIMIT, RateLimiter.CellIn(cells, key), now) >= 1
  {
  }

  lemma SentOfMatching(l: Limiting, project: Uuid, accounts: seq<string>, out: Outcome, id: Uuid)
    requires FoundRight(project, accounts, out) && SortedRight(l, out) && forall t :: t in out.sent ==> t in out.found
    ensures id in IdsOf(out.sent) <==>
      && id in Matching(out.rows, project, accounts) && out.kind in out.rows[id].scope
      && (l.redis ==> HasToken(out.before, l.key(id), l.now))
  {
    if id in IdsOf(out.sent) {
      var u :| u in out.sent && u.id == id;
      assert Subscribed(out.rows, out.kind, u);
    }
    if id in Matching(out.rows, project, accounts) {
      var t :| t in out.found && t.id == id;
      FoundOnce(out, project, accounts, t);
    }
  }

  /**
   Sent to are exactly the subscribers of the project with a requested address who have the type in their scope and, if
   there are limits, a token left.
   */
  lemma SentExactlyTo(h: Digest, l: Limiting, project: Uuid, accounts: seq<string>, out: Outcome, id: Uuid)
    requires AllAccounts(h, accounts) && RowsGood(h, out.rows)
    requires FoundRight(project, accounts, out) && SortedRight(l, out) && forall t :: t in out.sent ==> t in out.found
    ensures id in IdsOf(out.sent) <==>
      && id in out.rows && out.rows[id].project == project && IsRequested(accounts, out.rows[id].account)
      && out.kind in out.rows[id].scope
      && (l.redis ==> TokenBucket.Available(SUBSCRIBER_LIMIT, RateLimiter.CellIn(out.before, l.key(id)), l.now) >= 1)
  {
    SentOfMatching(l, project, accounts, out, id);
    TokenExactly(out.before, l.key(id), l.now);
    if id in out.rows {
      RequestedExactly(h, out.rows, project, accounts, id);
    }
  }

  /** The target with an identifier that is sent to is the one that was found. */
  lemma FoundOnce(out: Outcome, project: Uuid, accounts: seq<string>, t: Target)
    requires FoundRight(project, accounts, out) && t in out.found && (forall u :: u in out.sent ==> u in out.found)
    ensures t.id in IdsOf(out.sent) <==> t in out.sent
  {
    if u :| u in out.sent && u.id == t.id {
      SameIdSameTarget(out.found, t, u);
    }
  }

  // ----- Whole bodies -----

  function CountAccounts(body: seq<NotifyBodyNotification>): nat {
    if body == [] then 0 else |body[0].accounts| + CountAccounts(body[1..])
  }

  /** The notification is stored, its subscribers are found and sorted rightly, and their buckets called. */
  ghost predicate IsAnswered(notifications: map<Uuid, Queue.Notification>, l: Limiting, project: Uuid,
                             item: NotifyBodyNotification, out: Outcome)
  {
    && IsStored(notifications, project, item, out)
    && FoundRight(project, item.accounts, out)
    && SortedRight(l, out)
  }

  ghost predicate IsServed(view: Queue.Sys, l: Limiting, project: Uuid, item: NotifyBodyNotification, out: Outcome) {
    IsAnswered(view.notifications, l, project, item, out) && HaveRows(view, out.notification, out.sent)
  }

  ghost predicate ServedAt(view: Queue.Sys, rows: map<Uuid, Row>, departures: nat -> Departures, l: Limiting,
                           project: Uuid, body: seq<NotifyBodyNotification>, j: nat, out: Outcome)
  {
    && j < |body| && IsServed(view, l, project, body[j], out)
    && SawRows(rows, departures, j, out) && !DroppedOut(departures(j), out)
  }

  ghost predicate AllServed(view: Queue.Sys, rows: map<Uuid, Row>, departures: nat -> Departures, l: Limiting,
                            project: Uuid, body: seq<NotifyBodyNotification>, outs: seq<Outcome>)
  {
    forall j :: 0 <= j < |outs| ==> ServedAt(view, rows, departures, l, project, body, j, outs[j])
  }

  /** New rows were sent to, and no other row of those who stay was touched. */
  ghost predicate AddedBy(before: map<Uuid, Queue.Delivery>, after: Queue.Sys, outs: seq<Outcome>) {
    && DeliveriesKept(before, after)
    && (forall id :: id in after.deliveries && id !in before ==>
          exists j :: 0 <= j < |outs| && IsRowFor(after.deliveries[id], outs[j]))
  }

  ghost predicate IsRowFor(row: Queue.Delivery, out: Outcome) {
    row.notification == out.notification && row.subscriber in IdsOf(out.sent) && row.status == Queue.Queued
  }

  ghost function Left(start: Buckets, outs: seq<Outcome>): Buckets {
    if outs == [] then start else outs[|outs| - 1].after
  }

  /** Each notification finds the buckets as the ones before left them. */
  ghost predicate Chained(start: Buckets, outs: seq<Outcome>, end: Buckets) {
    end == Left(start, outs) && forall j :: 0 <= j < |outs| ==> outs[j].before == Left(start, outs[..j])
  }

  ghost predicate AllCovered(response: ResponseBody, body: seq<NotifyBodyNotification>, n: nat) {
    forall j, a :: 0 <= j < n && j < |body| && a in body[j].accounts ==> Covered(response, a)
  }

  ghost predicate SentExactly(response: ResponseBody, outs: seq<Outcome>) {
    forall a :: a in response.sent <==> exists j :: 0 <= j < |outs| && a in AccountsOf(outs[j].sent)
  }

  ghost predicate RespondsWith(response: ResponseBody, item: NotifyBodyNotification, out: Outcome,
                               response': ResponseBody)
  {
    Responds(response, item.accounts, out.found, out.sent, out.unsubscribed, out.limited, response')
  }

  lemma CoveredStep(response: ResponseBody, body: seq<NotifyBodyNotification>, n: nat, out: Outcome,
                    response': ResponseBody)
    requires n < |body| && AllCovered(response, body, n) && RespondsWith(response, body[n], out, response')
    ensures AllCovered(response', body, n + 1)
  {
    forall j, a | 0 <= j < n + 1 && a in body[j].accounts ensures Covered(response', a) {
      StaysCovered(response, body[n].accounts, out.found, out.sent, out.unsubscribed, out.limited, response', a);
    }
  }

  lemma SentStep(response: ResponseBody, outs: seq<Outcome>, item: NotifyBodyNotification, out: Outcome,
                 response': ResponseBody)
    requires SentExactly(response, outs) && RespondsWith(response, item, out, response')
    ensures SentExactly(response', outs + [out])
  {
    var longer := outs + [out];
    assert longer[|outs|] == out;
    forall a ensures a in response'.sent <==> exists j :: 0 <= j < |longer| && a in AccountsOf(longer[j].sent) {
      if a in response.sent {
        var j :| 0 <= j < |outs| && a in AccountsOf(outs[j].sent);
        assert longer[j] == outs[j];
      }
      if j :| 0 <= j < |longer| && a in AccountsOf(longer[j].sent) {
        assert j < |outs| ==> longer[j] == outs[j];
      }
    }
  }

  lemma AddedStep(start: map<Uuid, Queue.Delivery>, before: Queue.Sys, after: Queue.Sys, outs: seq<Outcome>,
                  out: Outcome)
    requires AddedBy(start, before, outs) && OnlyAddsFor(before.deliveries, after, out.notification, IdsOf(out.sent))
    requires after.subscribers <= before.subscribers
    ensures AddedBy(start, after, outs + [out])
  {
    var longer := outs + [out];
    assert longer[|outs|] == out;
    forall id | id in after.deliveries && id !in start
      ensures exists j :: 0 <= j < |longer| && IsRowFor(after.deliveries[id], longer[j])
    {
      if id in before.deliveries {
        var j :| 0 <= j < |outs| && IsRowFor(before.deliveries[id], outs[j]);
        assert longer[j] == outs[j];
      } else {
        assert IsRowFor(after.deliveries[id], longer[|outs|]);
      }
    }
  }

  lemma AddedNone(start: map<Uuid, Queue.Delivery>, before: Queue.Sys, after: Queue.Sys, outs: seq<Outcome>,
                  notification: Uuid)
    requires AddedBy(start, before, outs) && OnlyAddsFor(before.deliveries, after, notification, {})
    requires after.subscribers <= before.subscribers
    ensures AddedBy(start, after, outs)
  {
    forall id | id in after.deliveries && id !in start
      ensures exists j :: 0 <= j < |outs| && IsRowFor(after.deliveries[id], outs[j])
    {
      assert id in before.deliveries;
      var j :| 0 <= j < |outs| && IsRowFor(before.deliveries[id], outs[j]);
    }
  }

  lemma HaveRowsStays(before: Queue.Sys, after: Queue.Sys, notification: Uuid, sent: seq<Target>)
    requires HaveRows(before, notification, sent)
    requires DeliveriesKept(before.deliveries, after) && after.subscribers <= before.subscribers
    ensures HaveRows(after, notification, sent)
  {
    forall t | t in sent && t.id in after.subscribers ensures Queue.HasDelivery(after, notification, t.id) {
      assert Queue.HasDelivery(before, notification, t.id);
      var id :| id in before.deliveries &&
                before.deliveries[id].notification == notification && before.deliveries[id].subscriber == t.id;
      assert id in after.deliveries;
    }
  }

  lemma ServedStays(before: Queue.Sys, after: Queue.Sys, rows: map<Uuid, Row>, departures: nat -> Departures,
                    l: Limiting, project: Uuid, body: seq<NotifyBodyNotification>, outs: seq<Outcome>)
    requires AllServed(before, rows, departures, l, project, body, outs)
    requires NotificationsKept(before.notifications, after.notifications)
    requires DeliveriesKept(before.deliveries, after) && after.subscribers <= before.subscribers
    ensures AllServed(after, rows, departures, l, project, body, outs)
  {
    forall j | 0 <= j < |outs| ensures ServedAt(after, rows, departures, l, project, body, j, outs[j]) {
      assert ServedAt(before, rows, departures, l, project, body, j, outs[j]);
      HaveRowsStays(before, after, outs[j].notification, outs[j].sent);
    }
  }

  lemma ServedStep(view: Queue.Sys, rows: map<Uuid, Row>, departures: nat -> Departures, l: Limiting, project: Uuid,
                   body: seq<NotifyBodyNotification>, outs: seq<Outcome>, out: Outcome)
    requires AllServed(view, rows, departures, l, project, body, outs)
    requires ServedAt(view, rows, departures, l, project, body, |outs|, out)
    ensures AllServed(view, rows, departures, l, project, body, outs + [out])
  {
    var longer := outs + [out];
    forall j | 0 <= j < |longer| ensures ServedAt(view, rows, departures, l, project, body, j, longer[j]) {
      assert longer[j] == if j < |outs| then outs[j] else out;
    }
  }

  lemma ChainedStep(start: Buckets, outs: seq<Outcome>, mid: Buckets, out: Outcome)
    requires Chained(start, outs, mid) && out.before == mid
    ensures Chained(start, outs + [out], out.after)
  {
    var longer := outs + [out];
    forall j | 0 <= j < |longer| ensures longer[j].before == Left(start, longer[..j]) {
      assert longer[..j] == outs[..j];
      assert outs[..|outs|] == outs;
    }
  }

  /** The state of the handler between two notifications: `outs` are done. */
  ghost predicate Answered(start: map<Uuid, Queue.Delivery>, startBuckets: Buckets, view: Queue.Sys, buckets: Buckets,
                           rows: map<Uuid, Row>, departures: nat -> Departures, l: Limiting, project: Uuid,
                           body: seq<NotifyBodyNotification>, outs: seq<Outcome>, response: ResponseBody)
  {
    && SentExactly(response, outs) && AllCovered(response, body, |outs|)
    && AllServed(view, rows, departures, l, project, body, outs)
    && AddedBy(start, view, outs)
    && Chained(startBuckets, outs, buckets)
  }

  /**
   What a request leaves behind that fails in the insert of a notification, because someone it is for has left: that
   notification is stored and its buckets are called, but it has no rows, and all earlier ones are served.
   */
  ghost predicate BrokeOff(start: map<Uuid, Queue.Delivery>, startBuckets: Buckets, view: Queue.Sys, buckets: Buckets,
                           rows: map<Uuid, Row>, departures: nat -> Departures, l: Limiting, project: Uuid,
                           body: seq<NotifyBodyNotification>, outs: seq<Outcome>, out: Outcome)
  {
    && |outs| < |body|
    && AllServed(view, rows, departures, l, project, body, outs)
    && AddedBy(start, view, outs)
    && IsAnswered(view.notifications, l, project, body[|outs|], out)
    && SawRows(rows, departures, |outs|, out) && DroppedOut(departures(|outs|), out)
    && Chained(startBuckets, outs + [out], buckets)
  }

  /** What one notification did, from the state `before` it. */
  ghost predicate Handled(before: Queue.Sys, after: Queue.Sys, rows: map<Uuid, Row>, departures: nat -> Departures,
                          l: Limiting, project: Uuid, body: seq<NotifyBodyNotification>, j: nat, out: Outcome)
  {
    && j < |body| && after.subscribers <= before.subscribers && Queue.Consistent(after)
    && NotificationsKept(before.notifications, after.notifications)
    && IsAnswered(after.notifications, l, project, body[j], out)
    && SawRows(rows, departures, j, out)
  }

  /** The loop over a body: `outs` are done, and `left` are the subscribers. */
  ghost predicate Between(start: map<Uuid, Queue.Delivery>, startBuckets: Buckets, view: Queue.Sys, buckets: Buckets,
                          rows: map<Uuid, Row>, departures: nat -> Departures, l: Limiting, project: Uuid,
                          body: seq<NotifyBodyNotification>, outs: seq<Outcome>, response: ResponseBody,
                          left: map<Uuid, Row>)
  {
    && Queue.Consistent(view) && left.Keys == view.subscribers
    && BodyAgree(left, project, body) && left == rows - GoneBy(departures, |outs|)
    && Answered(start, startBuckets, view, buckets, rows, departures, l, project, body, outs, response)
    && (outs == [] ==> response == ResponseBody({}, {}, {}))
    && (|outs| == 1 && body != [] ==> RespondsWith(ResponseBody({}, {}, {}), body[0], outs[0], response))
  }

  lemma NothingYet(view: Queue.Sys, buckets: Buckets, rows: map<Uuid, Row>, departures: nat -> Departures,
                   l: Limiting, project: Uuid, body: seq<NotifyBodyNotification>)
    requires Queue.Consistent(view) && rows.Keys == view.subscribers && BodyAgree(rows, project, body)
    ensures Between(view.deliveries, buckets, view, buckets, rows, departures, l, project, body, [],
                    ResponseBody({}, {}, {}), rows)
  {
    assert rows - GoneBy(departures, 0) == rows;
  }

  lemma AnsweredStep(start: map<Uuid, Queue.Delivery>, startBuckets: Buckets, before: Queue.Sys, after: Queue.Sys,
                     rows: map<Uuid, Row>, departures: nat -> Departures, l: Limiting, project: Uuid,
                     body: seq<NotifyBodyNotification>, outs: seq<Outcome>, out: Outcome, response: ResponseBody,
                     response': ResponseBody)
    requires Handled(before, after, rows, departures, l, project, body, |outs|, out)
    requires Answered(start, startBuckets, before, out.before, rows, departures, l, project, body, outs, response)
    requires OnlyAddsFor(before.deliveries, after, out.notification, IdsOf(out.sent))
    requires HaveRows(after, out.notification, out.sent) && !DroppedOut(departures(|outs|), out)
    requires RespondsWith(response, body[|outs|], out, response')
    ensures Answered(start, startBuckets, after, out.after, rows, departures, l, project, body, outs + [out], response')
  {
    CoveredStep(response, body, |outs|, out, response');
    SentStep(response, outs, body[|outs|], out, response');
    AddedStep(start, before, after, outs, out);
    ServedStays(before, after, rows, departures, l, project, body, outs);
    ServedStep(after, rows, departures, l, project, body, outs, out);
    ChainedStep(startBuckets, outs, out.before, out);
  }

  lemma NextBetween(start: map<Uuid, Queue.Delivery>, startBuckets: Buckets, before: Queue.Sys, after: Queue.Sys,
                    rows: map<Uuid, Row>, departures: nat -> Departures, l: Limiting, project: Uuid,
                    body: seq<NotifyBodyNotification>, outs: seq<Outcome>, out: Outcome, response: ResponseBody,
                    response': ResponseBody, present: map<Uuid, Row>, left: map<Uuid, Row>)
    requires Handled(before, after, rows, departures, l, project, body, |outs|, out)
    requires Between(start, startBuckets, before, out.before, rows, departures, l, project, body, outs, response,
                     present)
    requires OnlyAddsFor(before.deliveries, after, out.notification, IdsOf(out.sent))
    requires HaveRows(after, out.notification, out.sent) && !DroppedOut(departures(|outs|), out)
    requires RespondsWith(response, body[|outs|], out, response')
    requires left == rows - GoneBy(departures, |outs| + 1) && left.Keys == after.subscribers
    requires left == present - (departures(|outs|).beforeQuery + departures(|outs|).beforeInsert)
    ensures Between(start, startBuckets, after, out.after, rows, departures, l, project, body, outs + [out], response',
                    left)
  {
    AnsweredStep(start, startBuckets, before, after, rows, departures, l, project, body, outs, out, response,
                 response');
    FewerBodyAgree(present, departures(|outs|).beforeQuery + departures(|outs|).beforeInsert, project, body);
    FirstResponse(body, outs, out, response, response');
  }

  lemma FirstResponse(body: seq<NotifyBodyNotification>, outs: seq<Outcome>, out: Outcome, response: ResponseBody,
                      response': ResponseBody)
    requires |outs| < |body| && RespondsWith(response, body[|outs|], out, response')
    requires outs == [] ==> response == ResponseBody({}, {}, {})
    ensures |outs + [out]| == 1 ==> RespondsWith(ResponseBody({}, {}, {}), body[0], (outs + [out])[0], response')
  {
  }

  lemma BreakOff(start: map<Uuid, Queue.Delivery>, startBuckets: Buckets, before: Queue.Sys, after: Queue.Sys,
                 rows: map<Uuid, Row>, departures: nat -> Departures, l: Limiting, project: Uuid,
                 body: seq<NotifyBodyNotification>, outs: seq<Outcome>, out: Outcome, response: ResponseBody)
    requires Handled(before, after, rows, departures, l, project, body, |outs|, out)
    requires Answered(start, startBuckets, before, out.before, rows, departures, l, project, body, outs, response)
    requires OnlyAddsFor(before.deliveries, after, out.notification, {}) && DroppedOut(departures(|outs|), out)
    ensures BrokeOff(start, startBuckets, after, out.after, rows, departures, l, project, body, outs, out)
  {
    AddedNone(start, before, after, outs, out.notification);
    ServedStays(before, after, rows, departures, l, project, body, outs);
    ChainedStep(startBuckets, outs, out.before, out);
  }

  /** Whoever is left after some have gone can still be looked up. */
  lemma FewerAgree(rows: map<Uuid, Row>, gone: set<Uuid>, project: Uuid, accounts: seq<string>)
    requires AddressesAgree(rows, project, accounts)
    ensures AddressesAgree(rows - gone, project, accounts)
  {
    var fewer := rows - gone;
    forall table | IsLookupTable(accounts, table)
      ensures Answers(fewer, Matching(fewer, project, accounts), accounts, table)
    {
      assert Answers(rows, Matching(rows, project, accounts), accounts, table);
      forall id | id in Matching(fewer, project, accounts) ensures id in Matching(rows, project, accounts) {
      }
    }
  }

  ghost predicate BodyAgree(rows: map<Uuid, Row>, project: Uuid, body: seq<NotifyBodyNotification>) {
    forall i :: 0 <= i < |body| ==> AddressesAgree(rows, project, body[i].accounts)
  }

  lemma FewerBodyAgree(rows: map<Uuid, Row>, gone: set<Uuid>, project: Uuid, body: seq<NotifyBodyNotification>)
    requires BodyAgree(rows, project, body)
    ensures BodyAgree(rows - gone, project, body)
  {
    forall i | 0 <= i < |body| ensures AddressesAgree(rows - gone, project, body[i].accounts) {
      FewerAgree(rows, gone, project, body[i].accounts);
    }
  }

  lemma BodyAgrees(h: Digest, rows: map<Uuid, Row>, project: Uuid, body: seq<NotifyBodyNotification>)
    requires RowsGood(h, rows) && forall i :: 0 <= i < |body| ==> AllAccounts(h, body[i].accounts)
    ensures BodyAgree(rows, project, body)
  {
    forall i | 0 <= i < |body| ensures AddressesAgree(rows, project, body[i].accounts) {
      AccountsAgree(h, rows, project, body[i].accounts);
    }
  }

  /** Each requested account is in exactly one part of the response, and nothing else is in it. */
  ghost predicate IsPartition(response: ResponseBody, accounts: seq<string>) {
    && response.sent !! FailedAccounts(response) !! response.notFound
    && response.sent + FailedAccounts(response) + response.notFound == Requested(accounts)
  }

  lemma OnePartition(h: Digest, rows: map<Uuid, Row>, departures: nat -> Departures, project: Uuid,
                     item: NotifyBodyNotification, out: Outcome, response: ResponseBody)
    requires RowsGood(h, rows) && FoundRight(project, item.accounts, out)
    requires SawRows(rows, departures, 0, out)
    requires RespondsWith(ResponseBody({}, {}, {}), item, out, response)
    ensures IsPartition(response, item.accounts)
    ensures |item.accounts| == ResponseSize(response) <==> Distinct(item.accounts)
  {
    assert RowsGood(h, out.rows);
    FoundOncePerAccount(h, out.rows, project, item.accounts, out.found);
    ResponsePartition(item.accounts, out.found, out.sent, out.unsubscribed, out.limited, response);
    CountMatchesExactly(item.accounts, out.found, out.sent, out.unsubscribed, out.limited, response);
  }

  /** Why a request is refused, in the order of the checks. */
  ghost function Refusal(limited: Option<int>, body: seq<NotifyBodyNotification>, validate: Queue.Content -> bool,
                         known: bool): Option<NotifyError>
  {
    if limited.Some? then
      Some(TooManyRequests(limited.value))
    else if exists i :: 0 <= i < |body| && !validate(body[i].notification) then
      Some(Invalid)
    else if CountAccounts(body) > SUBSCRIBER_NOTIFICATION_COUNT_LIMIT then
      Some(TooManyNotifications)
    else if !known then
      Some(ProjectNotFound)
    else
      None
  }

  /** The number of accounts that a body names, repetitions included. */
  lemma {:induction false} CountAccountsIs(body: seq<NotifyBodyNotification>, longer: seq<NotifyBodyNotification>,
                                           last: NotifyBodyNotification)
    requires longer == body + [last]
    ensures CountAccounts([]) == 0 && CountAccounts(longer) == CountAccounts(body) + |last.accounts|
    decreases |body|
  {
    if body == [] {
      assert longer == [last] && longer[1..] == [];
    } else {
      assert longer[1..] == body[1..] + [last];
      CountAccountsIs(body[1..], longer[1..], last);
    }
  }

  /** Each refusal has its own reason, and an earlier reason goes first. */
  lemma RefusedExactly(limited: Option<int>, body: seq<NotifyBodyNotification>, validate: Queue.Content -> bool,
                       known: bool)
    ensures
      var refusal := Refusal(limited, body, validate, known);
      var valid := forall i :: 0 <= i < |body| ==> validate(body[i].notification);
      && (forall reset :: refusal == Some(TooManyRequests(reset)) <==> limited == Some(reset))
      && (refusal == Some(Invalid) <==> limited.None? && !valid)
      && (refusal == Some(TooManyNotifications) <==> limited.None? && valid && CountAccounts(body) > 500)
      && (refusal == Some(ProjectNotFound) <==> limited.None? && valid && CountAccounts(body) <= 500 && !known)
      && (refusal == None <==> limited.None? && valid && CountAccounts(body) <= 500 && known)
  {
  }

  /** A subscriber can be sent 50 notifications at once, and in any longer time two more an hour. */
  lemma SubscriberLimits(start: int, before: seq<TokenBucket.Event>, t1: int, window: seq<TokenBucket.Event>, t2: int,
                         k: nat)
    requires TokenBucket.IsRun(SUBSCRIBER_LIMIT, TokenBucket.Absent, start, before, t1)
    requires TokenBucket.IsRun(SUBSCRIBER_LIMIT, TokenBucket.Final(SUBSCRIBER_LIMIT, TokenBucket.Absent, before), t1,
                               window, t2)
    ensures TokenBucket.Admissions(SUBSCRIBER_LIMIT, TokenBucket.Final(SUBSCRIBER_LIMIT, TokenBucket.Absent, before),
                                   window) <= 50 + 2 * ((t2 - t1) / 3_600_000 + 1)
    ensures TokenBucket.Admissions(SUBSCRIBER_LIMIT, TokenBucket.Absent, TokenBounds.Calls(t1, k))
         == if k <= 50 then k else 50
  {
    TokenBucket.RunBound(SUBSCRIBER_LIMIT, start, before, t1, window, t2);
    TokenBounds.AfterCalls(SUBSCRIBER_LIMIT, TokenBucket.Absent, t1, k);
  }

  /** A project can call 20 times at once, and in any longer time twice more a second. */
  lemma ProjectLimits(start: int, before: seq<TokenBucket.Event>, t1: int, window: seq<TokenBucket.Event>, t2: int,
                      k: nat)
    requires TokenBucket.IsRun(PROJECT_LIMIT, TokenBucket.Absent, start, before, t1)
    requires TokenBucket.IsRun(PROJECT_LIMIT, TokenBucket.Final(PROJECT_LIMIT, TokenBucket.Absent, before), t1, window,
                               t2)
    ensures TokenBucket.Admissions(PROJECT_LIMIT, TokenBucket.Final(PROJECT_LIMIT, TokenBucket.Absent, before), window)
         <= 20 + 2 * ((t2 - t1) / 1_000 + 1)
    ensures TokenBucket.Admissions(PROJECT_LIMIT, TokenBucket.Absent, TokenBounds.Calls(t1, k))
         == if k <= 20 then k else 20
  {
    TokenBucket.RunBound(PROJECT_LIMIT, start, before, t1, window, t2);
    TokenBounds.AfterCalls(PROJECT_LIMIT, TokenBucket.Absent, t1, k);
  }

  /** The reset time in seconds when the project is over its limit. */
  ghost function ProjectLimited(redis: bool, cells: map<string, TokenBucket.Cell>, projectId: string, now: int)
    : Option<int>
    requires RateLimiter.AllBounded(PROJECT_LIMIT, cells)
  {
    var cell := RateLimiter.CellIn(cells, ProjectKey(projectId));
    if redis && !TokenBucket.Admits(PROJECT_LIMIT, cell, TokenBucket.Call(now)) then
      Some(TokenBucket.Attempt(PROJECT_LIMIT, cell, now).1.reset / 1000)
    else
      None
  }

  class NotifyHandler {
    const digest: Digest
    /** How identifiers are written in keys. */
    const text: Uuid -> string
    /** Whether a Redis is configured. */
    const redis: bool
    const projects: map<string, Uuid>
    const publisher: Publisher.PublisherService
    const projectLimits: RateLimiter.RateLimiter
    const subscriberLimits: RateLimiter.RateLimiter

    constructor (digest: Digest, text: Uuid -> string, redis: bool, projects: map<string, Uuid>,
                 publisher: Publisher.PublisherService, projectLimits: RateLimiter.RateLimiter,
                 subscriberLimits: RateLimiter.RateLimiter)
      ensures this.digest == digest && this.text == text && this.redis == redis && this.projects == projects
      ensures this.publisher == publisher
      ensures this.projectLimits == projectLimits && this.subscriberLimits == subscriberLimits
    {
      this.digest, this.text, this.redis, this.projects := digest, text, redis, projects;
      this.publisher, this.projectLimits, this.subscriberLimits := publisher, projectLimits, subscriberLimits;
    }

    ghost function LimitingOf(projectId: string): Limiting
      reads publisher
    {
      Limiting(redis, SubscriberKey(text, projectId), publisher.now)
    }

    /** Drops the targets whose bucket is empty; every answer of the script is there to be read. */
    method SubscriberRateLimit(projectId: string, valid: seq<Target>, response: ResponseBody)
        returns (response': ResponseBody, kept: seq<Target>, ghost limited: seq<Target>)
      requires IsText(text) && DistinctIds(valid)
      requires RateLimiter.AllBounded(SUBSCRIBER_LIMIT, subscriberLimits.cells)
      modifies subscriberLimits
      ensures RateLimiter.AllBounded(SUBSCRIBER_LIMIT, subscriberLimits.cells)
      ensures forall t :: t in valid ==>
        (t in kept <==>
          !redis || HasToken(old(subscriberLimits.cells), SubscriberKey(text, projectId)(t.id), publisher.now))
      ensures OneCallEach(LimitingOf(projectId), (set t | t in valid), old(subscriberLimits.cells),
                          subscriberLimits.cells)
      ensures (forall t :: t in kept ==> t in valid) && (forall t :: t in limited <==> t in valid && t !in kept)
      ensures Distinct(kept)
      ensures response' == response.(failed := response.failed + Failures(limited, LIMIT_EXCEEDED))
    {
      response', kept, limited := response, valid, [];
      if redis {
        var key := SubscriberKey(text, projectId);
        var keys := seq(|valid|, i requires 0 <= i < |valid| => key(valid[i].id));
        forall i, j | 0 <= i < j < |keys| ensures keys[i] != keys[j] {
          KeysDiffer(text, projectId, valid[i].id, valid[j].id);
        }
        var verdicts := subscriberLimits.TokenBucketMany(keys, SUBSCRIBER_LIMIT, publisher.now);
        VerdictsAreTokens(old(subscriberLimits.cells), subscriberLimits.cells, keys, publisher.now, verdicts);
        KeysAre(valid, key, keys);
        response', kept, limited := FilterLimited(valid, verdicts, key, response);
      }
    }

    /** `upsert_notification` with a new row identifier, and with a new key when none is given. */
    method UpsertNotification(project: Uuid, notificationId: Option<string>, content: Queue.Content)
        returns (id: Uuid, kind: Uuid)
      requires Queue.Consistent(publisher.View())
      modifies publisher`notifications
      ensures Queue.Consistent(publisher.View()) && id in publisher.notifications
      ensures publisher.notifications[id].content.kind == kind && publisher.notifications[id].project == project
      ensures notificationId.Some? ==> publisher.notifications[id].notificationId == notificationId.value
      ensures id in old(publisher.notifications) || IsNew(publisher.notifications[id], content, publisher.now)
      ensures NotificationsKept(old(publisher.notifications), publisher.notifications)
    {
      var newId := NewUuid(publisher.notifications.Keys);
      var notificationId' := if notificationId.Some? then notificationId.value else text(newId);
      var stored;
      id, stored := publisher.UpsertNotification(project, notificationId', content, newId);
      kind := stored.kind;
    }

    /** What others do between two statements of this request: these subscribers leave, and their rows with them. */
    method Leave(rows: map<Uuid, Row>, gone: set<Uuid>) returns (left: map<Uuid, Row>)
      requires rows.Keys == publisher.subscribers && Queue.Consistent(publisher.View())
      modifies publisher`subscribers, publisher`retired, publisher`deliveries
      ensures publisher.View() == Without(old(publisher.View()), gone) && Queue.Consistent(publisher.View())
      ensures left == rows - gone && left.Keys == publisher.subscribers
    {
      WithoutConsistent(publisher.View(), gone);
      publisher.retired := publisher.retired + gone * publisher.subscribers;
      publisher.subscribers := publisher.subscribers - gone;
      publisher.deliveries :=
        map id | id in publisher.deliveries && publisher.deliveries[id].subscriber !in gone :: publisher.deliveries[id];
      left := rows - gone;
    }

    /**
     `upsert_subscriber_notifications` for the targets that are sent to: one statement, which violates a foreign key
     and changes nothing exactly when one of them has left.
     */
    method Enqueue(notification: Uuid, ids: seq<Uuid>, ghost sent: seq<Target>) returns (inserted: bool)
      requires Queue.Consistent(publisher.View()) && notification in publisher.notifications
      requires Elements(ids) == IdsOf(sent)
      modifies publisher`deliveries, publisher`origin
      ensures Queue.Consistent(publisher.View())
      ensures inserted <==> IdsOf(sent) <= publisher.subscribers
      ensures inserted ==> HaveRows(publisher.View(), notification, sent)
      ensures !inserted ==> publisher.View() == old(publisher.View())
      ensures OnlyAddsFor(old(publisher.deliveries), publisher.View(), notification,
                          if inserted then IdsOf(sent) else {})
      ensures NewIds(old(publisher.View()), publisher.View())
    {
      inserted := forall id :: id in ids ==> id in publisher.subscribers;
      if inserted {
        var rowIds := NewUuids(|ids|, publisher.origin.Keys);
        publisher.UpsertSubscriberNotifications(notification, ids, rowIds);
        forall t | t in sent ensures Queue.HasDelivery(publisher.View(), notification, t.id) {
          assert t.id in Elements(ids);
        }
      }
    }

    /** The same, after some have left. */
    method LeaveAndEnqueue(rows: map<Uuid, Row>, gone: set<Uuid>, notification: Uuid, ids: seq<Uuid>,
                           ghost sent: seq<Target>)
        returns (inserted: bool, left: map<Uuid, Row>)
      requires rows.Keys == publisher.subscribers && Queue.Consistent(publisher.View())
      requires notification in publisher.notifications && Elements(ids) == IdsOf(sent)
      modifies publisher`deliveries, publisher`origin, publisher`subscribers, publisher`retired
      ensures Queue.Consistent(publisher.View())
      ensures left == rows - gone && left.Keys == publisher.subscribers
      ensures inserted <==> IdsOf(sent) <= publisher.subscribers
      ensures inserted ==> HaveRows(publisher.View(), notification, sent)
      ensures OnlyAddsFor(old(publisher.deliveries), publisher.View(), notification,
                          if inserted then IdsOf(sent) else {})
      ensures NewIds(old(publisher.View()), publisher.View())
    {
      ghost var before := publisher.View();
      left := Leave(rows, gone);
      inserted := Enqueue(notification, ids, sent);
      AddedAfterLeaving(before, gone, publisher.View(), notification, if inserted then IdsOf(sent) else {});
    }

    /** The subscribers of a project among the requested accounts. */
    method FindTargets(rows: map<Uuid, Row>, project: Uuid, accounts: seq<string>) returns (found: seq<Target>)
      requires AddressesAgree(rows, project, accounts)
      ensures Sliceable(accounts) && FoundFor(rows, Matching(rows, project, accounts), accounts, found)
      ensures IdsOf(found) <= rows.Keys
    {
      var table := LookupTable(accounts);
      found := FoundTargets(rows, Matching(rows, project, accounts), accounts, table);
    }

    /** Sorts the found targets into sent and failed ones. */
    method Sort(rows: map<Uuid, Row>, projectId: string, accounts: seq<string>, found: seq<Target>,
                ghost notification: Uuid, kind: Uuid, response: ResponseBody)
        returns (response': ResponseBody, ids: seq<Uuid>, ghost out: Outcome)
      requires IsText(text) && DistinctIds(found)
      requires RateLimiter.AllBounded(SUBSCRIBER_LIMIT, subscriberLimits.cells)
      modifies subscriberLimits
      ensures RateLimiter.AllBounded(SUBSCRIBER_LIMIT, subscriberLimits.cells)
      ensures out.notification == notification && out.kind == kind && out.rows == rows && out.found == found
      ensures out.before == old(subscriberLimits.cells) && out.after == subscriberLimits.cells
      ensures Elements(ids) == IdsOf(out.sent) <= IdsOf(found)
      ensures Responds(response, accounts, found, out.sent, out.unsubscribed, out.limited, response')
      ensures Apart(out)
      ensures SortedRight(LimitingOf(projectId), out)
    {
      response' := response.(notFound := response.notFound + set a | a in accounts);
      var valid, kept;
      ghost var unsubscribed, limited;
      response', valid, unsubscribed := CheckScopes(found, rows, kind, response');
      KeptDistinctIds(found, valid);
      assert (set t | t in valid) == Checked(found, unsubscribed);
      response', kept, limited := SubscriberRateLimit(projectId, valid, response');
      response', ids := MarkSent(kept, response');
      IdsAre(kept, ids);
      out := Outcome(notification, kind, rows, found, kept, unsubscribed, limited, old(subscriberLimits.cells),
                     subscriberLimits.cells);
    }

    /** Everything about one notification but its tables. */
    method Answer(rows: map<Uuid, Row>, projectId: string, project: Uuid, accounts: seq<string>,
                  ghost notification: Uuid, kind: Uuid, response: ResponseBody)
        returns (response': ResponseBody, ids: seq<Uuid>, ghost out: Outcome)
      requires AddressesAgree(rows, project, accounts) && IsText(text)
      requires RateLimiter.AllBounded(SUBSCRIBER_LIMIT, subscriberLimits.cells)
      modifies subscriberLimits
      ensures RateLimiter.AllBounded(SUBSCRIBER_LIMIT, subscriberLimits.cells)
      ensures out.notification == notification && out.kind == kind && out.rows == rows
      ensures out.before == old(subscriberLimits.cells) && out.after == subscriberLimits.cells
      ensures Elements(ids) == IdsOf(out.sent) <= rows.Keys
      ensures FoundRight(project, accounts, out)
      ensures Responds(response, accounts, out.found, out.sent, out.unsubscribed, out.limited, response')
      ensures SortedRight(LimitingOf(projectId), out)
    {
      var found := FindTargets(rows, project, accounts);
      response', ids, out := Sort(rows, projectId, accounts, found, notification, kind, response);
    }

    /** The first half of one notification; `stored` is the state in which others begin to leave. */
    method StoreAndAnswer(rows: map<Uuid, Row>, projectId: string, project: Uuid, item: NotifyBodyNotification,
                          gone: set<Uuid>, response: ResponseBody)
        returns (response': ResponseBody, ids: seq<Uuid>, notification: Uuid, left: map<Uuid, Row>,
                 ghost out: Outcome, ghost stored: Queue.Sys)
      requires AddressesAgree(rows, project, item.accounts) && IsText(text)
      requires rows.Keys == publisher.subscribers && Queue.Consistent(publisher.View())
      requires RateLimiter.AllBounded(SUBSCRIBER_LIMIT, subscriberLimits.cells)
      modifies publisher`notifications, publisher`deliveries, publisher`subscribers, publisher`retired, subscriberLimits
      ensures RateLimiter.AllBounded(SUBSCRIBER_LIMIT, subscriberLimits.cells)
      ensures Queue.Consistent(publisher.View()) && Queue.Consistent(stored)
      ensures publisher.View() == Without(stored, gone) && stored.deliveries == old(publisher.deliveries)
      ensures stored.subscribers == old(publisher.subscribers)
      ensures left == rows - gone && left.Keys == publisher.subscribers && out.rows == left
      ensures notification == out.notification && Elements(ids) == IdsOf(out.sent) <= left.Keys
      ensures out.notification in publisher.notifications
      ensures out.notification in old(publisher.notifications) ||
        IsNew(publisher.notifications[out.notification], item.notification, publisher.now)
      ensures NotificationsKept(old(publisher.notifications), publisher.notifications)
      ensures IsAnswered(publisher.notifications, LimitingOf(projectId), project, item, out)
      ensures out.before == old(subscriberLimits.cells) && out.after == subscriberLimits.cells
      ensures Responds(response, item.accounts, out.found, out.sent, out.unsubscribed, out.limited, response')
    {
      var kind;
      notification, kind := UpsertNotification(project, item.notificationId, item.notification);
      stored := publisher.View();
      left := Leave(rows, gone);
      FewerAgree(rows, gone, project, item.accounts);
      response', ids, out := Answer(left, projectId, project, item.accounts, notification, kind, response);
    }

    /**
     One notification of the body. It fails exactly when someone it would be sent to leaves before the rows are
     inserted; by then the notification is stored and the buckets are called.
     */
    method NotifyOne(rows: map<Uuid, Row>, projectId: string, project: Uuid, item: NotifyBodyNotification,
                     departing: Departures, response: ResponseBody)
        returns (result: Result<ResponseBody, NotifyError>, left: map<Uuid, Row>, ghost out: Outcome)
      requires AddressesAgree(rows, project, item.accounts) && IsText(text)
      requires rows.Keys == publisher.subscribers && Queue.Consistent(publisher.View())
      requires RateLimiter.AllBounded(SUBSCRIBER_LIMIT, subscriberLimits.cells)
      modifies publisher`notifications, publisher`deliveries, publisher`origin
      modifies publisher`subscribers, publisher`retired, subscriberLimits
      ensures Queue.Consistent(publisher.View())
      ensures RateLimiter.AllBounded(SUBSCRIBER_LIMIT, subscriberLimits.cells)
      ensures left == rows - departing.beforeQuery - departing.beforeInsert && left.Keys == publisher.subscribers
      ensures out.rows == rows - departing.beforeQuery
      ensures IsAnswered(publisher.notifications, LimitingOf(projectId), project, item, out)
      ensures out.notification in old(publisher.notifications) ||
        IsNew(publisher.notifications[out.notification], item.notification, publisher.now)
      ensures out.before == old(subscriberLimits.cells) && out.after == subscriberLimits.cells
      ensures NotificationsKept(old(publisher.notifications), publisher.notifications)
      ensures if DroppedOut(departing, out) then result == Err(Database) else result.Ok?
      ensures OnlyAddsFor(old(publisher.deliveries), publisher.View(), out.notification,
                          if result.Ok? then IdsOf(out.sent) else {})
      ensures result.Ok? ==>
        && HaveRows(publisher.View(), out.notification, out.sent)
        && Responds(response, item.accounts, out.found, out.sent, out.unsubscribed, out.limited, result.value)
    {
      var response', ids, notification, inserted;
      ghost var stored;
      response', ids, notification, left, out, stored :=
        StoreAndAnswer(rows, projectId, project, item, departing.beforeQuery, response);
      inserted, left := LeaveAndEnqueue(left, departing.beforeInsert, notification, ids, out.sent);
      DroppedOutExactly(out, departing, publisher.subscribers);
      result := if inserted then Ok(response') else Err(Database);
      AddedAfterLeaving(stored, departing.beforeQuery, publisher.View(), notification,
                        if inserted then IdsOf(out.sent) else {});
    }

    /**
     The failure happens: with no limits and nothing stored before, a notification for a subscriber of its type who
     leaves before the insert fails after it has been stored, and no row is queued for anyone.
     */
    method LeaverFails(rows: map<Uuid, Row>, projectId: string, project: Uuid, item: NotifyBodyNotification,
                       leaver: Uuid, response: ResponseBody)
        returns (result: Result<ResponseBody, NotifyError>, ghost stored: Uuid)
      requires AddressesAgree(rows, project, item.accounts) && IsText(text) && !redis
      requires rows.Keys == publisher.subscribers && Queue.Consistent(publisher.View())
      requires RateLimiter.AllBounded(SUBSCRIBER_LIMIT, subscriberLimits.cells)
      requires publisher.notifications == map[] && leaver in Matching(rows, project, item.accounts)
      requires item.notification.kind in rows[leaver].scope
      modifies publisher`notifications, publisher`deliveries, publisher`origin
      modifies publisher`subscribers, publisher`retired, subscriberLimits
      ensures result == Err(Database)
      ensures stored in publisher.notifications
      ensures publisher.notifications[stored].project == project
      ensures publisher.notifications[stored].content.kind == item.notification.kind
      ensures publisher.deliveries.Keys <= old(publisher.deliveries).Keys
    {
      var departing := Departures({}, {leaver});
      var left;
      ghost var out;
      result, left, out := NotifyOne(rows, projectId, project, item, departing, response);
      assert out.rows == rows;
      IsSentTo(LimitingOf(projectId), project, item.accounts, out, leaver);
      stored := out.notification;
    }

    /** The next notification of a body, after `outs`. */
    method NotifyNext(ghost start: map<Uuid, Queue.Delivery>, ghost startBuckets: Buckets, ghost rows: map<Uuid, Row>,
                      projectId: string, project: Uuid, body: seq<NotifyBodyNotification>,
                      departures: nat -> Departures, ghost outs: seq<Outcome>, i: nat, present: map<Uuid, Row>,
                      response: ResponseBody)
        returns (result: Result<ResponseBody, NotifyError>, left: map<Uuid, Row>, ghost out: Outcome)
      requires |outs| == i < |body| && IsText(text)
      requires RateLimiter.AllBounded(SUBSCRIBER_LIMIT, subscriberLimits.cells)
      requires Between(start, startBuckets, publisher.View(), subscriberLimits.cells, rows, departures,
                       LimitingOf(projectId), project, body, outs, response, present)
      modifies publisher`notifications, publisher`deliveries, publisher`origin
      modifies publisher`subscribers, publisher`retired, subscriberLimits
      ensures Queue.Consistent(publisher.View())
      ensures RateLimiter.AllBounded(SUBSCRIBER_LIMIT, subscriberLimits.cells)
      ensures result.Ok? ==>
        Between(start, startBuckets, publisher.View(), subscriberLimits.cells, rows, departures, LimitingOf(projectId),
                project, body, outs + [out], result.value, left)
      ensures result.Err? ==>
        && result.error == Database
        && BrokeOff(start, startBuckets, publisher.View(), subscriberLimits.cells, rows, departures,
                    LimitingOf(projectId), project, body, outs, out)
    {
      ghost var before, l := publisher.View(), LimitingOf(projectId);
      result, left, out := NotifyOne(present, projectId, project, body[i], departures(i), response);
      LeftThen(rows, departures, i, present, left, out);
      assert Handled(before, publisher.View(), rows, departures, l, project, body, i, out);
      if result.Ok? {
        NextBetween(start, startBuckets, before, publisher.View(), rows, departures, l, project, body, outs, out,
                    response, result.value, present, left);
      } else {
        BreakOff(start, startBuckets, before, publisher.View(), rows, departures, l, project, body, outs, out,
                 response);
      }
    }

    /** The loop over the body. */
    method NotifyAll(rows: map<Uuid, Row>, projectId: string, project: Uuid, body: seq<NotifyBodyNotification>,
                     departures: nat -> Departures)
        returns (result: Result<ResponseBody, NotifyError>, ghost outs: seq<Outcome>, ghost broken: Option<Outcome>)
      requires IsText(text) && BodyAgree(rows, project, body)
      requires rows.Keys == publisher.subscribers && Queue.Consistent(publisher.View())
      requires RateLimiter.AllBounded(SUBSCRIBER_LIMIT, subscriberLimits.cells)
      modifies publisher`notifications, publisher`deliveries, publisher`origin
      modifies publisher`subscribers, publisher`retired, subscriberLimits
      ensures Queue.Consistent(publisher.View())
      ensures RateLimiter.AllBounded(SUBSCRIBER_LIMIT, subscriberLimits.cells)
      ensures if broken.Some? then result == Err(Database) else result.Ok? && |outs| == |body|
      ensures result.Ok? ==>
        Answered(old(publisher.deliveries), old(subscriberLimits.cells), publisher.View(), subscriberLimits.cells,
                 rows, departures, LimitingOf(projectId), project, body, outs, result.value)
      ensures broken.Some? ==>
        BrokeOff(old(publisher.deliveries), old(subscriberLimits.cells), publisher.View(), subscriberLimits.cells,
                 rows, departures, LimitingOf(projectId), project, body, outs, broken.value)
      ensures result.Ok? && |body| == 1 ==>
        RespondsWith(ResponseBody({}, {}, {}), body[0], outs[0], result.value)
    {
      var response, left := ResponseBody({}, {}, {}), rows;
      outs, broken := [], None;
      ghost var start, startBuckets := publisher.deliveries, subscriberLimits.cells;
      NothingYet(publisher.View(), startBuckets, rows, departures, LimitingOf(projectId), project, body);
      for i := 0 to |body|
        invariant |outs| == i && broken.None?
        invariant RateLimiter.AllBounded(SUBSCRIBER_LIMIT, subscriberLimits.cells)
        invariant Between(start, startBuckets, publisher.View(), subscriberLimits.cells, rows, departures,
                          LimitingOf(projectId), project, body, outs, response, left)
      {
        var one;
        ghost var out;
        one, left, out := NotifyNext(start, startBuckets, rows, projectId, project, body, departures, outs, i, left,
                                     response);
        if one.Err? {
          return Err(Database), outs, Some(out);
        }
        response, outs := one.value, outs + [out];
      }
      result := Ok(response);
    }

    /** The checks before anything is written. */
    method Admit(projectId: string, body: seq<NotifyBodyNotification>, validate: Queue.Content -> bool)
        returns (project: Result<Uuid, NotifyError>)
      requires RateLimiter.AllBounded(PROJECT_LIMIT, projectLimits.cells)
      modifies projectLimits
      ensures RateLimiter.AllBounded(PROJECT_LIMIT, projectLimits.cells)
      ensures project.Ok? ==> projectId in projects && project.value == projects[projectId]
      ensures (if project.Err? then Some(project.error) else None) ==
        Refusal(ProjectLimited(redis, old(projectLimits.cells), projectId, publisher.now), body, validate,
                projectId in projects)
    {
      if redis {
        var admitted := projectLimits.TokenBucketOne(ProjectKey(projectId), PROJECT_LIMIT, publisher.now);
        if admitted.Err? {
          return Err(TooManyRequests(admitted.error));
        }
      }
      for i := 0 to |body|
        invariant forall j :: 0 <= j < i ==> validate(body[j].notification)
      {
        if !validate(body[i].notification) {
          return Err(Invalid);
        }
      }
      if CountAccounts(body) > SUBSCRIBER_NOTIFICATION_COUNT_LIMIT {
        return Err(TooManyNotifications);
      }
      project := if projectId in projects then Ok(projects[projectId]) else Err(ProjectNotFound);
    }

    /** The handler behind its checks. */
    method NotifyAdmitted(rows: map<Uuid, Row>, projectId: string, project: Uuid, body: seq<NotifyBodyNotification>,
                          departures: nat -> Departures)
        returns (result: Result<ResponseBody, NotifyError>, ghost outs: seq<Outcome>, ghost broken: Option<Outcome>)
      requires IsText(text) && RowsGood(digest, rows)
      requires forall i :: 0 <= i < |body| ==> AllAccounts(digest, body[i].accounts)
      requires rows.Keys == publisher.subscribers && Queue.Consistent(publisher.View())
      requires RateLimiter.AllBounded(SUBSCRIBER_LIMIT, subscriberLimits.cells)
      modifies publisher`notifications, publisher`deliveries, publisher`origin
      modifies publisher`subscribers, publisher`retired, subscriberLimits
      ensures Queue.Consistent(publisher.View())
      ensures RateLimiter.AllBounded(SUBSCRIBER_LIMIT, subscriberLimits.cells)
      ensures if broken.Some? then result == Err(Database) else result.Ok? && |outs| == |body|
      ensures result.Ok? ==>
        Answered(old(publisher.deliveries), old(subscriberLimits.cells), publisher.View(), subscriberLimits.cells,
                 rows, departures, LimitingOf(projectId), project, body, outs, result.value)
      ensures broken.Some? ==>
        BrokeOff(old(publisher.deliveries), old(subscriberLimits.cells), publisher.View(), subscriberLimits.cells,
                 rows, departures, LimitingOf(projectId), project, body, outs, broken.value)
      ensures result.Ok? && |body| == 1 ==>
        && IsPartition(result.value, body[0].accounts)
        && (|body[0].accounts| == ResponseSize(result.value) <==> Distinct(body[0].accounts))
    {
      BodyAgrees(digest, rows, project, body);
      result, outs, broken := NotifyAll(rows, projectId, project, body, departures);
      if result.Ok? && |body| == 1 {
        assert ServedAt(publisher.View(), rows, departures, LimitingOf(projectId), project, body, 0, outs[0]);
        OnePartition(digest, rows, departures, project, body[0], outs[0], result.value);
      }
    }

    /**
     `handler_impl`. A refused request writes nothing but its own rate limit. An accepted one stores every notification
     and queues a row for exactly the subscribers it reports as sent to, of which it loses only those who leave later;
     no requested account is missing from the response, and for one notification the response is a partition. It
     breaks off exactly when a subscriber to be sent to leaves between the query and the insert; the rows and tokens of
     the notifications before, and the tokens of this one, are then spent although the answer is an error.
     */
    method HandlerImpl(rows: map<Uuid, Row>, projectId: string, body: seq<NotifyBodyNotification>,
                       validate: Queue.Content -> bool, departures: nat -> Departures)
        returns (result: Result<ResponseBody, NotifyError>, ghost outs: seq<Outcome>, ghost broken: Option<Outcome>)
      requires IsText(text) && RowsGood(digest, rows)
      requires forall i :: 0 <= i < |body| ==> AllAccounts(digest, body[i].accounts)
      requires rows.Keys == publisher.subscribers && Queue.Consistent(publisher.View())
      requires projectLimits != subscriberLimits
      requires RateLimiter.AllBounded(PROJECT_LIMIT, projectLimits.cells)
      requires RateLimiter.AllBounded(SUBSCRIBER_LIMIT, subscriberLimits.cells)
      modifies publisher`notifications, publisher`deliveries, publisher`origin, publisher`subscribers
      modifies publisher`retired, projectLimits, subscriberLimits
      ensures Queue.Consistent(publisher.View())
      ensures RateLimiter.AllBounded(PROJECT_LIMIT, projectLimits.cells)
      ensures RateLimiter.AllBounded(SUBSCRIBER_LIMIT, subscriberLimits.cells)
      ensures
        var refusal := Refusal(ProjectLimited(redis, old(projectLimits.cells), projectId, publisher.now), body,
                               validate, projectId in projects);
        if refusal.Some? then
          && result == Err(refusal.value) && publisher.View() == old(publisher.View())
          && subscriberLimits.cells == old(subscriberLimits.cells)
        else
          projectId in projects && if broken.Some? then result == Err(Database) else result.Ok? && |outs| == |body|
      ensures result.Ok? ==>
        Answered(old(publisher.deliveries), old(subscriberLimits.cells), publisher.View(), subscriberLimits.cells,
                 rows, departures, LimitingOf(projectId), projects[projectId], body, outs, result.value)
      ensures result == Err(Database) ==>
        broken.Some? &&
        BrokeOff(old(publisher.deliveries), old(subscriberLimits.cells), publisher.View(), subscriberLimits.cells,
                 rows, departures, LimitingOf(projectId), projects[projectId], body, outs, broken.value)
      ensures result.Ok? && |body| == 1 ==>
        && IsPartition(result.value, body[0].accounts)
        && (|body[0].accounts| == ResponseSize(result.value) <==> Distinct(body[0].accounts))
    {
      outs, broken := [], None;
      var project := Admit(projectId, body, validate);
      if project.Err? {
        return Err(project.error), [], None;
      }
      result, outs, broken := NotifyAdmitted(rows, projectId, project.value, body, departures);
    }
  }
}
