/**
 Who may change and watch subscriptions, and what a change shows afterwards: the rules of the handlers as their users
 see them, step by step and over whole histories.
 */
module Access {
  import opened Wrappers
  import opened AccountId
  import opened Authorization
  import opened Watchers

  // ----- Who may change a subscription -----

  /** The client may act for this app. */
  predicate MayActFor(authorized: AuthorizedApp, appDomain: string) {
    authorized == Unlimited || authorized == Limited(appDomain)
  }

  /** The project that a topic leads to, if there is one. */
  predicate IsAbout(projects: Projects, subscribers: map<Uuid, Subscriber>, change: ChangeKind, project: Uuid) {
    && project in projects
    && match change
       case Subscribe(p, _, _, _, _) => p == project
       case Update(id, _) => id in subscribers && subscribers[id].project == project
       case Delete(id) => id in subscribers && subscribers[id].project == project
  }

  /** A row is changed for its own address only. */
  predicate OwnsRow(subscribers: map<Uuid, Subscriber>, r: Request)
    requires r.Change?
  {
    match r.change
    case Subscribe(_, _, _, _, _) => true
    case Update(id, _) => id in subscribers && AddressesMatch(r.account, subscribers[id].account)
    case Delete(id) => id in subscribers && AddressesMatch(r.account, subscribers[id].account)
  }

  predicate AddressesMatch(a: string, b: string) {
    && GetAddressFromAccount(a).Some? && GetAddressFromAccount(b).Some?
    && EqIgnoreAsciiCase(GetAddressFromAccount(a).value, GetAddressFromAccount(b).value)
  }

  ghost predicate MayChange(projects: Projects, subscribers: map<Uuid, Subscriber>, r: Request)
    requires r.Change?
  {
    exists project ::
      && IsAbout(projects, subscribers, r.change, project)
      && r.appDomain == projects[project].appDomain && MayActFor(r.authorized, projects[project].appDomain)
      && OwnsRow(subscribers, r)
  }

  lemma AboutOne(projects: Projects, subscribers: map<Uuid, Subscriber>, change: ChangeKind, project: Uuid)
    ensures IsAbout(projects, subscribers, change, project)
       <==> ProjectOf(subscribers, change) == Some(project) && project in projects
  {
  }

  /** The checks accept a change exactly when the client may make it. */
  lemma ChangeAllowedExactly(projects: Projects, subscribers: map<Uuid, Subscriber>, r: Request)
    requires r.Change?
    ensures CheckChange(projects, subscribers, r).Ok? <==> MayChange(projects, subscribers, r)
  {
    if CheckChange(projects, subscribers, r).Ok? {
      var project := ProjectOf(subscribers, r.change).value;
      assert IsAbout(projects, subscribers, r.change, project);
    }
    if MayChange(projects, subscribers, r) {
      var project :| IsAbout(projects, subscribers, r.change, project) &&
                     r.appDomain == projects[project].appDomain &&
                     MayActFor(r.authorized, projects[project].appDomain) && OwnsRow(subscribers, r);
      AboutOne(projects, subscribers, r.change, project);
    }
  }

  /** Why a change is refused: the first of four reasons that holds. */
  lemma RefusedFor(projects: Projects, subscribers: map<Uuid, Subscriber>, r: Request, project: Uuid)
    requires r.Change?
    ensures CheckChange(projects, subscribers, r) == Err(WrongTopic)
       <==> forall p :: !IsAbout(projects, subscribers, r.change, p)
    ensures IsAbout(projects, subscribers, r.change, project) ==>
      && (CheckChange(projects, subscribers, r) == Err(AppDoesNotMatch) <==>
            r.appDomain != projects[project].appDomain)
      && (CheckChange(projects, subscribers, r) == Err(AppSubscriptionsUnauthorized) <==>
            r.appDomain == projects[project].appDomain && !MayActFor(r.authorized, r.appDomain))
      && (CheckChange(projects, subscribers, r) == Err(AccountNotAuthorized) <==>
            r.appDomain == projects[project].appDomain && MayActFor(r.authorized, r.appDomain) &&
            !OwnsRow(subscribers, r))
  {
    AboutOne(projects, subscribers, r.change, project);
    if ProjectOf(subscribers, r.change).Some? {
      AboutOne(projects, subscribers, r.change, ProjectOf(subscribers, r.change).value);
    }
  }

  ghost predicate SameRow(before: map<Uuid, Subscriber>, after: map<Uuid, Subscriber>, id: Uuid) {
    (id in before <==> id in after) && (id in before && id in after ==> before[id] == after[id])
  }

  /** The row is, before or after the step, one of this project and address. */
  ghost predicate IsRowIn(before: map<Uuid, Subscriber>, after: map<Uuid, Subscriber>, id: Uuid, project: Uuid,
                          account: string)
  {
    IsRowOf(before, id, project, account) || IsRowOf(after, id, project, account)
  }

  /** A request that may change the rows of this project and address. */
  ghost predicate MayTouch(projects: Projects, step: Step, project: Uuid, account: string) {
    && step.Handle? && step.request.Change? && step.request.account == account
    && project in projects && MayActFor(step.request.authorized, projects[project].appDomain)
  }

  lemma OnlyChangesTouch(projects: Projects, s: State, step: Step, s': State, id: Uuid)
    requires Next(projects, s, step, s') && !SameRow(s.subscribers, s'.subscribers, id)
    ensures step.Handle? && step.request.Change? && CheckChange(projects, s.subscribers, step.request).Ok?
    ensures Writes(s.subscribers, s.now, step.request.account, step.request.change, s'.subscribers)
  {
  }

  lemma TouchedRow(before: map<Uuid, Subscriber>, after: map<Uuid, Subscriber>, project: Uuid, account: string,
                   id: Uuid)
    requires OnlyTouches(before, after, project, account) && !SameRow(before, after, id)
    ensures IsRowIn(before, after, id, project, account)
  {
  }

  lemma StepTouches(h: Digest, projects: Projects, s: State, step: Step, s': State, id: Uuid) returns (project: Uuid)
    requires Valid(h, projects, s) && Enabled(h, s, step) && Next(projects, s, step, s')
    requires !SameRow(s.subscribers, s'.subscribers, id)
    ensures step.Handle? && MayTouch(projects, step, project, step.request.account)
    ensures IsRowIn(s.subscribers, s'.subscribers, id, project, step.request.account)
  {
    OnlyChangesTouch(projects, s, step, s', id);
    project := TouchedBy(h, projects, s, step.request, s'.subscribers, id);
  }

  lemma TouchedBy(h: Digest, projects: Projects, s: State, r: Request, written: map<Uuid, Subscriber>, id: Uuid)
      returns (project: Uuid)
    requires RowsGood(projects, s.subscribers) && AllAccounts(h, Accounts(s.subscribers))
    requires r.Change? && Enabled(h, s, Handle(r)) && CheckChange(projects, s.subscribers, r).Ok?
    requires Writes(s.subscribers, s.now, r.account, r.change, written) && !SameRow(s.subscribers, written, id)
    ensures MayTouch(projects, Handle(r), project, r.account)
    ensures IsRowIn(s.subscribers, written, id, project, r.account)
  {
    project := ProjectOf(s.subscribers, r.change).value;
    WritesTouchOneRow(h, projects, s, r, written);
    TouchedRow(s.subscribers, written, project, r.account, id);
  }

  /**
   Over every history of a server that starts with empty tables, a row of the subscriber table appears, changes or
   disappears only in the handling of a request of its own address, by a client that may act for its app.
   */
  lemma RowsChangeOnRequest(h: Digest, projects: Projects, states: seq<State>, steps: seq<Step>, i: nat, id: Uuid)
      returns (project: Uuid)
    requires UniqueDomains(projects) && IsRun(h, projects, states, steps) && i < |steps|
    requires states[0] == State(map[], map[], map[], states[0].now)
    requires !SameRow(states[i].subscribers, states[i + 1].subscribers, id)
    ensures steps[i].Handle? && MayTouch(projects, steps[i], project, steps[i].request.account)
    ensures IsRowIn(states[i].subscribers, states[i + 1].subscribers, id, project, steps[i].request.account)
  {
    CoherentFromEmpty(h, projects, states, steps, i);
    project := StepTouches(h, projects, states[i], steps[i], states[i + 1], id);
  }

  // ----- What a change shows -----

  /** The entry that the list of an app has after its subscription was made or updated. */
  ghost predicate ShowsScope(projects: Projects, before: set<Subscription>, r: Request, scope: set<Uuid>, now: nat,
                             project: Uuid, x: Subscription)
    requires r.Change? && project in projects
  {
    && x.appDomain == r.appDomain && x.appAuthenticationKey == projects[project].authenticationKey
    && x.scope == scope && x.expiry == (now + 2_592_000_000) / 1000
    && (forall y :: y in before ==> x.symKey == y.symKey && x.account == y.account)
    && (before == {} ==> r.change.Subscribe? && x.symKey == r.change.symKey && x.account == r.account)
  }

  lemma AppRows(projects: Projects, rows: map<Uuid, Subscriber>, account: string, project: Uuid)
    requires UniqueDomains(projects) && project in projects && InProjects(projects, rows)
    ensures forall id :: id in rows && Wanted(projects, rows[id], account, Some(projects[project].appDomain))
                    <==> IsRowOf(rows, id, project, account)
  {
  }

  lemma OneRowList(projects: Projects, rows: map<Uuid, Subscriber>, account: string, project: Uuid, id: Uuid)
    requires UniqueDomains(projects) && project in projects && RowsGood(projects, rows)
    requires IsRowOf(rows, id, project, account)
    ensures Fresh(projects, rows, account, Some(projects[project].appDomain)) == {Wrap(projects, rows[id])}
  {
    AppRows(projects, rows, account, project);
    OneRowOf(rows, project, account);
    var list := Fresh(projects, rows, account, Some(projects[project].appDomain));
    forall x ensures x in list <==> x == Wrap(projects, rows[id]) {
      if x in list {
        var other :| other in rows && Wanted(projects, rows[other], account, Some(projects[project].appDomain)) &&
                     x == Wrap(projects, rows[other]);
        assert IsRowOf(rows, other, project, account);
      }
      assert Wanted(projects, rows[id], account, Some(projects[project].appDomain));
    }
  }

  lemma NoRowList(projects: Projects, rows: map<Uuid, Subscriber>, account: string, project: Uuid)
    requires UniqueDomains(projects) && project in projects && InProjects(projects, rows)
    requires forall id :: !IsRowOf(rows, id, project, account)
    ensures Fresh(projects, rows, account, Some(projects[project].appDomain)) == {}
  {
    AppRows(projects, rows, account, project);
  }

  lemma UpdatedShows(projects: Projects, rows: map<Uuid, Subscriber>, r: Request, scope: set<Uuid>, now: nat,
                     project: Uuid, id: Uuid)
    requires UniqueDomains(projects) && project in projects && RowsGood(projects, rows)
    requires r.Change? && r.appDomain == projects[project].appDomain && IsRowOf(rows, id, project, r.account)
    ensures
      var written := rows[id := rows[id].(scope := scope, expiry := now + 30 * DAY)];
      exists x :: Fresh(projects, written, r.account, Some(r.appDomain)) == {x} &&
        ShowsScope(projects, Fresh(projects, rows, r.account, Some(r.appDomain)), r, scope, now, project, x)
  {
    var row := rows[id].(scope := scope, expiry := now + 30 * DAY);
    OneRowList(projects, rows, r.account, project, id);
    ReplacedRow(projects, rows, id, row, r.account);
    OneRowList(projects, rows[id := row], r.account, project, id);
    var x := Wrap(projects, row);
    assert Fresh(projects, rows[id := row], r.account, Some(r.appDomain)) == {x};
  }

  lemma SubscribedShows(projects: Projects, rows: map<Uuid, Subscriber>, r: Request, now: nat)
    requires UniqueDomains(projects) && RowsGood(projects, rows)
    requires r.Change? && r.change.Subscribe? && r.change.newId !in rows && r.change.project in projects
    requires r.appDomain == projects[r.change.project].appDomain
    requires forall id :: !IsRowOf(rows, id, r.change.project, r.account)
    ensures
      var c := r.change;
      var written := rows[c.newId := Subscriber(c.project, r.account, c.symKey, c.topic, c.scope, now + 30 * DAY)];
      exists x :: Fresh(projects, written, r.account, Some(r.appDomain)) == {x} &&
        ShowsScope(projects, Fresh(projects, rows, r.account, Some(r.appDomain)), r, c.scope, now, c.project, x)
  {
    var c := r.change;
    var row := Subscriber(c.project, r.account, c.symKey, c.topic, c.scope, now + 30 * DAY);
    NoRowList(projects, rows, r.account, c.project);
    InsertedRow(projects, rows, c.newId, row);
    OneRowList(projects, rows[c.newId := row], r.account, c.project, c.newId);
    var x := Wrap(projects, row);
    assert Fresh(projects, rows[c.newId := row], r.account, Some(r.appDomain)) == {x};
  }

  lemma DeletedShows(projects: Projects, rows: map<Uuid, Subscriber>, account: string, project: Uuid, id: Uuid)
    requires UniqueDomains(projects) && project in projects && RowsGood(projects, rows)
    requires IsRowOf(rows, id, project, account)
    ensures Fresh(projects, rows - {id}, account, Some(projects[project].appDomain)) == {}
  {
    OneRowOf(rows, project, account);
    NoRowList(projects, rows - {id}, account, project);
  }

  /** The list after a change, for what the list was before. */
  ghost predicate Shows(projects: Projects, before: set<Subscription>, r: Request, now: nat, project: Uuid,
                        after: set<Subscription>)
    requires r.Change? && project in projects
  {
    match r.change
    case Delete(_) => after == {}
    case Update(_, scope) => exists x :: after == {x} && ShowsScope(projects, before, r, scope, now, project, x)
    case Subscribe(_, scope, _, _, _) =>
      exists x :: after == {x} && ShowsScope(projects, before, r, scope, now, project, x)
  }

  lemma WrittenShows(projects: Projects, rows: map<Uuid, Subscriber>, r: Request, now: nat, project: Uuid,
                     written: map<Uuid, Subscriber>)
    requires UniqueDomains(projects) && project in projects && RowsGood(projects, rows)
    requires r.Change? && r.appDomain == projects[project].appDomain && IsAbout(projects, rows, r.change, project)
    requires !r.change.Subscribe? ==> IsRowOf(rows, r.change.subscriber, project, r.account)
    requires r.change.Subscribe? ==> r.change.newId !in rows
    requires Writes(rows, now, r.account, r.change, written)
    ensures Shows(projects, Fresh(projects, rows, r.account, Some(r.appDomain)), r, now, project,
                  Fresh(projects, written, r.account, Some(r.appDomain)))
  {
    match r.change
    case Subscribe(_, scope, _, _, _) =>
      if id :| IsRowOf(rows, id, project, r.account) {
        OneRowOf(rows, project, r.account);
        UpdatedShows(projects, rows, r, scope, now, project, id);
      } else {
        SubscribedShows(projects, rows, r, now);
      }
    case Update(id, scope) =>
      UpdatedShows(projects, rows, r, scope, now, project, id);
    case Delete(id) =>
      DeletedShows(projects, rows, r.account, project, id);
  }

  /**
   After a change that the client may make, the account's list for this app has no entry if the subscription was
   deleted, and otherwise one entry, with the scope that was asked for, for another thirty days, and with the key and
   the account it had before if it is not new.
   */
  lemma ChangeTakesEffect(h: Digest, projects: Projects, s: State, r: Request, s': State) returns (project: Uuid)
    requires UniqueDomains(projects) && Valid(h, projects, s)
    requires r.Change? && Enabled(h, s, Handle(r)) && MayChange(projects, s.subscribers, r)
    requires Next(projects, s, Handle(r), s')
    ensures IsAbout(projects, s.subscribers, r.change, project)
    ensures Shows(projects, Fresh(projects, s.subscribers, r.account, Some(r.appDomain)), r, s.now, project,
                  Fresh(projects, s'.subscribers, r.account, Some(r.appDomain)))
  {
    ChangeAllowedExactly(projects, s.subscribers, r);
    AuthorizedAddress(h, projects, s.subscribers, r);
    project := ProjectOf(s.subscribers, r.change).value;
    WrittenShows(projects, s.subscribers, r, s.now, project, s'.subscribers);
  }

  /** The table after a change: the one row of this project and address is rewritten, or a new one is there. */
  ghost predicate RowWritten(rows: map<Uuid, Subscriber>, r: Request, expiry: nat, after: map<Uuid, Subscriber>)
    requires r.Change?
  {
    match r.change
    case Subscribe(project, scope, symKey, topic, newId) =>
      && (forall id :: IsRowOf(rows, id, project, r.account) ==>
            after == rows[id := rows[id].(scope := scope, expiry := expiry)])
      && ((forall id :: !IsRowOf(rows, id, project, r.account)) ==>
            after == rows[newId := Subscriber(project, r.account, symKey, topic, scope, expiry)])
    case Update(id, scope) => id in rows && after == rows[id := rows[id].(scope := scope, expiry := expiry)]
    case Delete(id) => after == rows - {id}
  }

  lemma WrittenRow(rows: map<Uuid, Subscriber>, r: Request, now: nat, written: map<Uuid, Subscriber>)
    requires UniqueSubscribers(rows) && r.Change? && Writes(rows, now, r.account, r.change, written)
    ensures RowWritten(rows, r, now + 2_592_000_000, written)
  {
    if r.change.Subscribe? {
      OneRowOf(rows, r.change.project, r.account);
    }
  }

  /** An accepted change writes the row for thirty days. */
  lemma ChangeWritesRow(projects: Projects, s: State, r: Request, s': State)
    requires UniqueSubscribers(s.subscribers)
    requires r.Change? && MayChange(projects, s.subscribers, r) && Next(projects, s, Handle(r), s')
    ensures RowWritten(s.subscribers, r, s.now + 2_592_000_000, s'.subscribers)
    ensures s'.watchers == s.watchers && s'.now == s.now
  {
    ChangeAllowedExactly(projects, s.subscribers, r);
    WrittenRow(s.subscribers, r, s.now, s'.subscribers);
  }

  // ----- Who may watch, and for how long -----

  ghost predicate MayWatch(projects: Projects, s: State, r: Request)
    requires r.Watch?
  {
    && (r.app.None? ==> r.authorized == Unlimited)
    && (r.app.Some? ==>
          && MayActFor(r.authorized, r.app.value)
          && exists p :: p in projects && projects[p].appDomain == r.app.value &&
                         |SameProjectWatchers(s.watchers, r.account, p)| < 25)
  }

  /** A watch is accepted for an app exactly when the client may act for it, it exists, and there is room. */
  lemma WatchAllowedExactly(projects: Projects, s: State, r: Request)
    requires UniqueDomains(projects) && r.Watch?
    ensures CheckWatch(projects, s, r).Ok? <==> MayWatch(projects, s, r)
    ensures CheckWatch(projects, s, r) == Err(AppNotAuthorized) <==>
      match r.app case None => r.authorized != Unlimited case Some(d) => !MayActFor(r.authorized, d)
    ensures CheckWatch(projects, s, r) == Err(AppDomainNotFound) <==>
      && r.app.Some? && MayActFor(r.authorized, r.app.value)
      && forall p :: p in projects ==> projects[p].appDomain != r.app.value
  {
    if r.app.Some? {
      assert forall p :: p in ProjectNamed(projects, r.app) <==> p in projects && projects[p].appDomain == r.app.value;
      if p :| p in ProjectNamed(projects, r.app) && CheckAppAuthorization(r.authorized, r.app) {
        WatchOutcome(projects, s, r, Some(p));
      }
    }
  }

  /** What an accepted watch registers: this client, with its account and key, for the app it named or for all apps. */
  lemma WatchRegisters(projects: Projects, s: State, r: Request, s': State)
    requires UniqueDomains(projects) && r.Watch? && MayWatch(projects, s, r) && Next(projects, s, Handle(r), s')
    ensures r.didKey in s'.watchers && s'.watchers - {r.didKey} == s.watchers - {r.didKey}
    ensures
      var w := s'.watchers[r.didKey];
      && w.account == r.account && w.symKey == r.symKey && w.expiry == s.now + 86_400_000
      && (r.app.None? ==> w.project == None)
      && (r.app.Some? ==>
            w.project.Some? && w.project.value in projects && projects[w.project.value].appDomain == r.app.value)
  {
    WatchAllowedExactly(projects, s, r);
  }

  /** A client that is authorized for one app is shown nothing else when it begins to watch. */
  lemma WatchShowsOnly(projects: Projects, s: State, r: Request, s': State, domain: string, x: Subscription)
    requires r.Watch? && r.authorized == Limited(domain) && Next(projects, s, Handle(r), s')
    requires CheckWatch(projects, s, r).Ok? && r.didKey in s'.views && x in s'.views[r.didKey]
    ensures x.appDomain == domain && x.account == r.account
  {
    var y :| y in Fresh(projects, s.subscribers, r.account, r.app) && x == y.(account := r.account);
  }

  /** A change sends nothing to watchers that have expired, or watch another address or another app. */
  lemma SentOnlyToWatchers(projects: Projects, s: State, r: Request, s': State, k: string)
    requires r.Change? && Next(projects, s, Handle(r), s') && k in s.watchers && k in s.views
    requires
      var w := s.watchers[k];
      || w.expiry <= s.now || !SameAddress(w.account, r.account)
      || (w.project.Some? && w.project.value in projects && projects[w.project.value].appDomain != r.appDomain)
    ensures k in s'.views && s'.views[k] == s.views[k]
  {
  }

  predicate IsWatchBy(step: Step, k: string) {
    step.Handle? && step.request.Watch? && step.request.didKey == k
  }

  /** The watcher, until it expires at this time. */
  ghost predicate WatchesUntil(s: State, k: string, expiry: nat) {
    && (s.now < expiry ==> k in s.watchers)
    && (k in s.watchers ==> s.watchers[k].expiry == expiry)
  }

  lemma StepWatches(projects: Projects, s: State, step: Step, s': State, k: string, expiry: nat)
    requires Next(projects, s, step, s') && !IsWatchBy(step, k) && WatchesUntil(s, k, expiry)
    ensures WatchesUntil(s', k, expiry)
  {
  }

  /**
   A watcher is registered for a day: over every history in which the client does not watch again, it is an unexpired
   watcher exactly until 24 hours after its request.
   */
  lemma {:induction false} WatchesForADay(h: Digest, projects: Projects, states: seq<State>, steps: seq<Step>, i: nat,
                                          j: nat)
    requires IsRun(h, projects, states, steps) && i < j < |states|
    requires steps[i].Handle? && steps[i].request.Watch? && CheckWatch(projects, states[i], steps[i].request).Ok?
    requires forall n :: i < n < j ==> !IsWatchBy(steps[n], steps[i].request.didKey)
    ensures WatchesUntil(states[j], steps[i].request.didKey, states[i].now + 86_400_000)
    ensures
      var k := steps[i].request.didKey;
      (k in states[j].watchers && states[j].watchers[k].expiry > states[j].now) <==>
      states[j].now - states[i].now < 86_400_000
    decreases j
  {
    if j > i + 1 {
      WatchesForADay(h, projects, states, steps, i, j - 1);
      StepWatches(projects, states[j - 1], steps[j - 1], states[j], steps[i].request.didKey,
                  states[i].now + 86_400_000);
    } else {
      assert Next(projects, states[i], steps[i], states[j]);
    }
  }
}
