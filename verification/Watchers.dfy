/**
 Watching subscriptions (src/services/public_http_server/handlers/relay_webhook/handlers/): clients register as
 watchers of an account, for one app or for all apps, and every change of a subscription sends the recomputed list
 to the watchers concerned. Handlers are atomic steps and messages are delivered.
 */
module Watchers {
  import opened Wrappers
  import opened AccountId
  import opened Authorization

  datatype Project = Project(appDomain: string, authenticationKey: string)

  datatype Subscriber =
    Subscriber(project: Uuid, account: string, symKey: string, topic: string, scope: set<Uuid>, expiry: nat)

  datatype Watcher = Watcher(account: string, project: Option<Uuid>, symKey: string, expiry: nat)

  /** `NotifyServerSubscription` without its count of unread notifications. */
  datatype Subscription =
    Subscription(appDomain: string, appAuthenticationKey: string, symKey: string, account: string, scope: set<Uuid>,
                 expiry: nat)

  type Projects = map<Uuid, Project>

  /** The two tables, the list each client received last, and the clock in milliseconds. */
  datatype State = State(subscribers: map<Uuid, Subscriber>, watchers: map<string, Watcher>,
                         views: map<string, set<Subscription>>, now: nat)

  const SUBSCRIPTION_WATCHER_LIMIT := 25
  const DAY := 86_400_000

  // ----- Queries -----

  /** SQL's notion of the same address. */
  predicate SameAddress(a: string, b: string) {
    GetAddressLower(a) == GetAddressLower(b)
  }

  function Wrap(projects: Projects, s: Subscriber): Subscription
    requires s.project in projects
  {
    Subscription(projects[s.project].appDomain, projects[s.project].authenticationKey, s.symKey, s.account, s.scope,
                 s.expiry / 1000)
  }

  predicate Wanted(projects: Projects, s: Subscriber, account: string, app: Option<string>) {
    && s.project in projects
    && SameAddress(s.account, account)
    && (app.Some? ==> projects[s.project].appDomain == app.value)
  }

  /** The `WHERE` of the query for an account, and possibly an app. */
  function WantedIds(projects: Projects, subscribers: map<Uuid, Subscriber>, account: string, app: Option<string>)
    : set<Uuid>
  {
    set id | id in subscribers && Wanted(projects, subscribers[id], account, app)
  }

  /** `collect_subscriptions`: what the query finds now. */
  function Fresh(projects: Projects, subscribers: map<Uuid, Subscriber>, account: string, app: Option<string>)
    : set<Subscription>
  {
    set id | id in subscribers && Wanted(projects, subscribers[id], account, app) :: Wrap(projects, subscribers[id])
  }

  /** The same list with the account each entry shows replaced. */
  function Stamp(list: set<Subscription>, account: string): set<Subscription> {
    set s | s in list :: s.(account := account)
  }

  function OfApp(list: set<Subscription>, appDomain: string): set<Subscription> {
    set s | s in list && s.appDomain == appDomain
  }

  /** What a watcher watches: one app, or all apps. */
  function AppOf(projects: Projects, w: Watcher): Option<string> {
    if w.project.Some? && w.project.value in projects then Some(projects[w.project.value].appDomain) else None
  }

  /** `get_subscription_watchers_for_account_by_app_or_all_app`. */
  predicate IsSelected(projects: Projects, w: Watcher, now: nat, account: string, appDomain: string) {
    && w.expiry > now
    && SameAddress(w.account, account)
    && (w.project == None || AppOf(projects, w) == Some(appDomain))
  }

  ghost predicate UniqueDomains(projects: Projects) {
    forall p, q :: p in projects && q in projects && p != q ==> projects[p].appDomain != projects[q].appDomain
  }

  // ----- Requests -----

  datatype Request =
    | Watch(account: string, didKey: string, symKey: string, app: Option<string>, authorized: AuthorizedApp)
    | Change(account: string, didKey: string, mjv: string, appDomain: string, authorized: AuthorizedApp,
             change: ChangeKind)

  datatype ChangeKind =
    | Subscribe(project: Uuid, scope: set<Uuid>, symKey: string, topic: string, newId: Uuid)
    | Update(subscriber: Uuid, newScope: set<Uuid>)
    | Delete(subscriber: Uuid)

  datatype RequestError =
    | WrongTopic
    | AppDoesNotMatch
    | AppSubscriptionsUnauthorized
    | AccountNotAuthorized
    | AppNotAuthorized
    | AppDomainNotFound
    | WatcherLimitReached

  predicate CheckAppAuthorization(authorized: AuthorizedApp, app: Option<string>) {
    authorized.Limited? ==> app == Some(authorized.domain)
  }

  /** The project a change is about. */
  function ProjectOf(subscribers: map<Uuid, Subscriber>, change: ChangeKind): Option<Uuid> {
    match change
    case Subscribe(project, _, _, _, _) => Some(project)
    case Update(id, _) => if id in subscribers then Some(subscribers[id].project) else None
    case Delete(id) => if id in subscribers then Some(subscribers[id].project) else None
  }

  /** The checks made before anything is written, in their order. */
  function CheckChange(projects: Projects, subscribers: map<Uuid, Subscriber>, r: Request): Result<(), RequestError>
    requires r.Change?
  {
    var project := ProjectOf(subscribers, r.change);
    if project == None || project.value !in projects then
      Err(WrongTopic)
    else if r.appDomain != projects[project.value].appDomain then
      Err(AppDoesNotMatch)
    else if r.authorized.Limited? && r.authorized.domain != projects[project.value].appDomain then
      Err(AppSubscriptionsUnauthorized)
    else if !r.change.Subscribe?
         && IsSameAddress(r.account, subscribers[r.change.subscriber].account) != Some(true) then
      Err(AccountNotAuthorized)
    else
      Ok(())
  }

  ghost predicate IsRowOf(subscribers: map<Uuid, Subscriber>, id: Uuid, project: Uuid, account: string) {
    id in subscribers && subscribers[id].project == project && SameAddress(subscribers[id].account, account)
  }

  /** The three statements that change the subscriber table. */
  ghost predicate Writes(subscribers: map<Uuid, Subscriber>, now: nat, account: string, change: ChangeKind,
                         written: map<Uuid, Subscriber>)
  {
    match change
    case Subscribe(project, scope, symKey, topic, newId) =>
      if id :| IsRowOf(subscribers, id, project, account) then
        written == subscribers[id := subscribers[id].(scope := scope, expiry := now + 30 * DAY)]
      else
        written == subscribers[newId := Subscriber(project, account, symKey, topic, scope, now + 30 * DAY)]
    case Update(id, scope) =>
      id in subscribers && written == subscribers[id := subscribers[id].(scope := scope, expiry := now + 30 * DAY)]
    case Delete(id) =>
      written == subscribers - {id}
  }

  // ----- Fan-out -----

  /** The list a watcher gets, computed from the one list of all apps. */
  function ListFor(all: set<Subscription>, w: Watcher, appDomain: string): set<Subscription> {
    if w.project.Some? then OfApp(all, appDomain) else all
  }

  /** The account a delivered list shows: the requesting account in a response, the watcher's own in a push. */
  predicate IsStamp(k: string, w: Watcher, r: Request, stamp: string)
    requires r.Change?
  {
    if k != r.didKey then
      stamp == w.account
    else
      stamp == r.account || (r.mjv == "0" && stamp == w.account)
  }

  ghost predicate Delivered(all: set<Subscription>, k: string, w: Watcher, r: Request, view: set<Subscription>)
    requires r.Change?
  {
    exists stamp :: IsStamp(k, w, r, stamp) && view == Stamp(ListFor(all, w, r.appDomain), stamp)
  }

  ghost predicate FansOut(projects: Projects, s: State, r: Request, all: set<Subscription>,
                          views: map<string, set<Subscription>>)
    requires r.Change?
  {
    forall k :: k in s.watchers ==>
      if IsSelected(projects, s.watchers[k], s.now, r.account, r.appDomain) then
        k in views && Delivered(all, k, s.watchers[k], r, views[k])
      else
        (k in s.views ==> k in views && views[k] == s.views[k])
  }

  // ----- Steps -----

  datatype Step = Handle(request: Request) | DeleteExpired | Tick(elapsed: nat)

  function SameProjectWatchers(watchers: map<string, Watcher>, account: string, project: Uuid): set<string> {
    set k | k in watchers && watchers[k].project == Some(project) && SameAddress(watchers[k].account, account)
  }

  /** The condition of the insert. For all apps SQL compares with NULL, counts nothing, and always inserts. */
  ghost predicate HasRoom(watchers: map<string, Watcher>, account: string, project: Option<Uuid>) {
    project.Some? ==> |SameProjectWatchers(watchers, account, project.value)| < SUBSCRIPTION_WATCHER_LIMIT
  }

  function ProjectNamed(projects: Projects, app: Option<string>): set<Uuid> {
    set p | p in projects && app == Some(projects[p].appDomain)
  }

  ghost predicate WatchesAs(projects: Projects, app: Option<string>, project: Option<Uuid>) {
    if app == None then project == None else project.Some? && project.value in ProjectNamed(projects, app)
  }

  ghost function CheckWatch(projects: Projects, s: State, r: Request): Result<Option<Uuid>, RequestError>
    requires r.Watch?
  {
    if !CheckAppAuthorization(r.authorized, r.app) then
      Err(AppNotAuthorized)
    else if r.app.Some? && ProjectNamed(projects, r.app) == {} then
      Err(AppDomainNotFound)
    else
      var project := if r.app == None then None else var p :| p in ProjectNamed(projects, r.app); Some(p);
      if HasRoom(s.watchers, r.account, project) then Ok(project) else Err(WatcherLimitReached)
  }

  ghost predicate HandlesWatch(projects: Projects, s: State, r: Request, s': State)
    requires r.Watch?
  {
    match CheckWatch(projects, s, r)
    case Err(_) => s' == s
    case Ok(project) =>
      s' == s.(watchers := s.watchers[r.didKey := Watcher(r.account, project, r.symKey, s.now + DAY)],
               views := s.views[r.didKey := Stamp(Fresh(projects, s.subscribers, r.account, r.app), r.account)])
  }

  ghost predicate HandlesChange(projects: Projects, s: State, r: Request, s': State)
    requires r.Change?
  {
    match CheckChange(projects, s.subscribers, r)
    case Err(_) => s' == s
    case Ok(_) =>
      && Writes(s.subscribers, s.now, r.account, r.change, s'.subscribers)
      && s'.watchers == s.watchers && s'.now == s.now
      && FansOut(projects, s, r, Fresh(projects, s'.subscribers, r.account, None), s'.views)
  }

  ghost predicate Next(projects: Projects, s: State, step: Step, s': State) {
    match step
    case Handle(r) => if r.Watch? then HandlesWatch(projects, s, r, s') else HandlesChange(projects, s, r, s')
    case DeleteExpired => s' == s.(watchers := map k | k in s.watchers && s.watchers[k].expiry > s.now :: s.watchers[k])
    case Tick(elapsed) => s' == s.(now := s.now + elapsed)
  }

  /** What the callers and the identifiers guarantee: parsed accounts, and fresh ids for new rows. */
  ghost predicate Enabled(h: Digest, s: State, step: Step) {
    step.Handle? ==>
      && IsAccount(h, step.request.account)
      && (step.request.Change? && step.request.change.Subscribe? ==> step.request.change.newId !in s.subscribers)
  }

  // ----- Invariants -----

  ghost predicate UniqueSubscribers(subscribers: map<Uuid, Subscriber>) {
    forall i, j :: i in subscribers && j in subscribers && i != j ==>
      subscribers[i].project != subscribers[j].project || !SameAddress(subscribers[i].account, subscribers[j].account)
  }

  ghost predicate InProjects(projects: Projects, subscribers: map<Uuid, Subscriber>) {
    forall id :: id in subscribers ==> subscribers[id].project in projects
  }

  ghost predicate WatchProjects(projects: Projects, watchers: map<string, Watcher>) {
    forall k :: k in watchers && watchers[k].project.Some? ==> watchers[k].project.value in projects
  }

  ghost function Accounts(subscribers: map<Uuid, Subscriber>): set<string> {
    set id | id in subscribers :: subscribers[id].account
  }

  ghost predicate AllAccounts(h: Digest, accounts: set<string>) {
    forall a :: a in accounts ==> IsAccount(h, a)
  }

  ghost predicate WatchersCapped(watchers: map<string, Watcher>) {
    forall account: string, project: Uuid ::
      |SameProjectWatchers(watchers, account, project)| <= SUBSCRIPTION_WATCHER_LIMIT
  }

  ghost predicate RowsGood(projects: Projects, subscribers: map<Uuid, Subscriber>) {
    UniqueSubscribers(subscribers) && InProjects(projects, subscribers)
  }

  ghost predicate WatchersGood(projects: Projects, watchers: map<string, Watcher>) {
    WatchProjects(projects, watchers) && WatchersCapped(watchers)
  }

  ghost predicate Valid(h: Digest, projects: Projects, s: State) {
    && RowsGood(projects, s.subscribers) && AllAccounts(h, Accounts(s.subscribers))
    && WatchersGood(projects, s.watchers)
  }

  /**
   The last list a watcher received is what a fresh query for its account and app finds, up to the account shown,
   which is some account with the watcher's address.
   */
  ghost predicate ViewCurrent(projects: Projects, subscribers: map<Uuid, Subscriber>, w: Watcher,
                              view: set<Subscription>)
  {
    exists stamp :: SameAddress(stamp, w.account) &&
      view == Stamp(Fresh(projects, subscribers, w.account, AppOf(projects, w)), stamp)
  }

  ghost predicate Coherent(projects: Projects, s: State) {
    forall k :: k in s.watchers && s.watchers[k].expiry > s.now ==>
      k in s.views && ViewCurrent(projects, s.subscribers, s.watchers[k], s.views[k])
  }

  // ----- Lists -----

  lemma SameFresh(projects: Projects, subscribers: map<Uuid, Subscriber>, a: string, b: string, app: Option<string>)
    requires SameAddress(a, b)
    ensures Fresh(projects, subscribers, a, app) == Fresh(projects, subscribers, b, app)
  {
  }

  /** Filtering the list of all apps in memory gives what the query for one app gives. */
  lemma FilterIsQuery(projects: Projects, subscribers: map<Uuid, Subscriber>, account: string, appDomain: string)
    ensures OfApp(Fresh(projects, subscribers, account, None), appDomain)
         == Fresh(projects, subscribers, account, Some(appDomain))
  {
    var all := Fresh(projects, subscribers, account, None);
    forall s: Subscription
      ensures s in OfApp(all, appDomain) <==> s in Fresh(projects, subscribers, account, Some(appDomain))
    {
      if s in OfApp(all, appDomain) {
        var id :| id in subscribers && Wanted(projects, subscribers[id], account, None) &&
                  Wrap(projects, subscribers[id]) == s;
        assert Wanted(projects, subscribers[id], account, Some(appDomain));
      }
      if s in Fresh(projects, subscribers, account, Some(appDomain)) {
        var id :| id in subscribers && Wanted(projects, subscribers[id], account, Some(appDomain)) &&
                  Wrap(projects, subscribers[id]) == s;
        assert Wanted(projects, subscribers[id], account, None);
      }
    }
  }

  /** A list has one entry for each app. */
  lemma OneEntryPerApp(h: Digest, projects: Projects, s: State, account: string, app: Option<string>,
                       x: Subscription, y: Subscription)
    requires UniqueDomains(projects) && Valid(h, projects, s)
    requires x in Fresh(projects, s.subscribers, account, app) && y in Fresh(projects, s.subscribers, account, app)
    ensures x.appDomain == y.appDomain <==> x == y
  {
  }

  /** Rows of other projects, and of other addresses, are the same in both tables. */
  ghost predicate OnlyTouches(before: map<Uuid, Subscriber>, after: map<Uuid, Subscriber>, project: Uuid,
                              account: string)
  {
    forall id ::
      && (id in before && !IsRowOf(before, id, project, account) ==> id in after && after[id] == before[id])
      && (id in after && !IsRowOf(after, id, project, account) ==> id in before && before[id] == after[id])
  }

  lemma UnconcernedFresh(projects: Projects, before: map<Uuid, Subscriber>, after: map<Uuid, Subscriber>,
                         project: Uuid, account: string, w: string, app: Option<string>)
    requires project in projects && OnlyTouches(before, after, project, account)
    requires !SameAddress(w, account) || (app.Some? && app.value != projects[project].appDomain)
    ensures Fresh(projects, before, w, app) == Fresh(projects, after, w, app)
  {
    forall s: Subscription
      ensures s in Fresh(projects, before, w, app) <==> s in Fresh(projects, after, w, app)
    {
      if s in Fresh(projects, before, w, app) {
        var id :| id in before && Wanted(projects, before[id], w, app) && Wrap(projects, before[id]) == s;
        assert !IsRowOf(before, id, project, account);
        assert Wanted(projects, after[id], w, app);
      }
      if s in Fresh(projects, after, w, app) {
        var id :| id in after && Wanted(projects, after[id], w, app) && Wrap(projects, after[id]) == s;
        assert !IsRowOf(after, id, project, account);
        assert Wanted(projects, before[id], w, app);
      }
    }
  }

  // ----- Writes -----

  lemma ReplacedRow(projects: Projects, before: map<Uuid, Subscriber>, id: Uuid, row: Subscriber,
                    account: string)
    requires RowsGood(projects, before) && id in before
    requires row.project == before[id].project && row.account == before[id].account
    requires SameAddress(row.account, account)
    ensures OnlyTouches(before, before[id := row], row.project, account)
    ensures RowsGood(projects, before[id := row])
  {
    UniqueWith(before, id, row);
  }

  /** A row keeps the table unique when no other row has its project and address. */
  lemma UniqueWith(before: map<Uuid, Subscriber>, id: Uuid, row: Subscriber)
    requires UniqueSubscribers(before)
    requires forall other :: IsRowOf(before, other, row.project, row.account) ==> other == id
    ensures UniqueSubscribers(before[id := row])
  {
    forall i | i in before && i != id
      ensures before[i].project != row.project || !SameAddress(before[i].account, row.account)
    {
      assert !IsRowOf(before, i, row.project, row.account);
    }
  }

  lemma InsertedRow(projects: Projects, before: map<Uuid, Subscriber>, id: Uuid, row: Subscriber)
    requires RowsGood(projects, before) && id !in before
    requires row.project in projects
    requires !exists other :: IsRowOf(before, other, row.project, row.account)
    ensures OnlyTouches(before, before[id := row], row.project, row.account)
    ensures RowsGood(projects, before[id := row])
  {
    UniqueWith(before, id, row);
  }

  lemma DeletedRow(projects: Projects, before: map<Uuid, Subscriber>, id: Uuid, account: string)
    requires RowsGood(projects, before) && id in before && SameAddress(before[id].account, account)
    ensures OnlyTouches(before, before - {id}, before[id].project, account)
    ensures RowsGood(projects, before - {id})
  {
  }

  lemma AuthorizedAddress(h: Digest, projects: Projects, rows: map<Uuid, Subscriber>, r: Request)
    requires AllAccounts(h, Accounts(rows)) && IsAccount(h, r.account)
    requires r.Change? && CheckChange(projects, rows, r).Ok?
    ensures !r.change.Subscribe? ==> SameAddress(rows[r.change.subscriber].account, r.account)
  {
    if !r.change.Subscribe? {
      var account := rows[r.change.subscriber].account;
      assert account in Accounts(rows);
      assert IsSameAddress(r.account, account) == Some(true);
      SameInSql(h, r.account, account);
    }
  }

  lemma SameInSql(h: Digest, a: string, b: string)
    requires IsAccount(h, a) && IsAccount(h, b) && IsSameAddress(a, b) == Some(true)
    ensures SameAddress(b, a)
  {
    AddressAgreement(h, a, b);
  }

  lemma WritesKeepAccounts(rows: map<Uuid, Subscriber>, now: nat, account: string, change: ChangeKind,
                           written: map<Uuid, Subscriber>)
    requires Writes(rows, now, account, change, written)
    ensures Accounts(written) <= Accounts(rows) + {account}
  {
    forall id | id in written ensures written[id].account in Accounts(rows) + {account} {
      if id in rows {
        assert rows[id].account in Accounts(rows);
      }
    }
  }

  lemma WritesTouchOneRow(h: Digest, projects: Projects, s: State, r: Request, written: map<Uuid, Subscriber>)
    requires RowsGood(projects, s.subscribers) && AllAccounts(h, Accounts(s.subscribers))
    requires r.Change? && Enabled(h, s, Handle(r)) && CheckChange(projects, s.subscribers, r).Ok?
    requires Writes(s.subscribers, s.now, r.account, r.change, written)
    ensures OnlyTouches(s.subscribers, written, ProjectOf(s.subscribers, r.change).value, r.account)
    ensures RowsGood(projects, written)
  {
    var rows := s.subscribers;
    AuthorizedAddress(h, projects, rows, r);
    match r.change
    case Subscribe(project, scope, symKey, topic, newId) =>
      if id :| IsRowOf(rows, id, project, r.account) {
        OneRowOf(rows, project, r.account);
        ReplacedRow(projects, rows, id, written[id], r.account);
      } else {
        InsertedRow(projects, rows, newId, written[newId]);
      }
    case Update(id, scope) =>
      ReplacedRow(projects, rows, id, written[id], r.account);
    case Delete(id) =>
      DeletedRow(projects, rows, id, r.account);
  }

  lemma OneRowOf(rows: map<Uuid, Subscriber>, project: Uuid, account: string)
    requires UniqueSubscribers(rows)
    ensures forall i, j :: IsRowOf(rows, i, project, account) && IsRowOf(rows, j, project, account) ==> i == j
  {
  }

  // ----- Coherence -----

  lemma SelectedIsCurrent(projects: Projects, subscribers: map<Uuid, Subscriber>, w: Watcher, k: string, r: Request,
                          now: nat, view: set<Subscription>)
    requires r.Change? && IsSelected(projects, w, now, r.account, r.appDomain)
    requires w.project.Some? ==> w.project.value in projects
    requires Delivered(Fresh(projects, subscribers, r.account, None), k, w, r, view)
    ensures ViewCurrent(projects, subscribers, w, view)
  {
    var all := Fresh(projects, subscribers, r.account, None);
    var stamp :| IsStamp(k, w, r, stamp) && view == Stamp(ListFor(all, w, r.appDomain), stamp);
    FilterIsQuery(projects, subscribers, r.account, r.appDomain);
    SameFresh(projects, subscribers, r.account, w.account, AppOf(projects, w));
    assert SameAddress(stamp, w.account);
  }

  /** The fan-out reaches every watcher whose list the change can affect. */
  lemma FanOutKeepsCoherent(projects: Projects, s: State, r: Request, project: Uuid, s': State)
    requires Coherent(projects, s) && WatchProjects(projects, s.watchers) && project in projects
    requires r.Change? && r.appDomain == projects[project].appDomain
    requires OnlyTouches(s.subscribers, s'.subscribers, project, r.account)
    requires s'.watchers == s.watchers && s'.now == s.now
    requires FansOut(projects, s, r, Fresh(projects, s'.subscribers, r.account, None), s'.views)
    ensures Coherent(projects, s')
  {
    forall k | k in s'.watchers && s'.watchers[k].expiry > s'.now
      ensures k in s'.views && ViewCurrent(projects, s'.subscribers, s'.watchers[k], s'.views[k])
    {
      WatcherStaysCurrent(projects, s, r, project, s', k);
    }
  }

  lemma WatcherStaysCurrent(projects: Projects, s: State, r: Request, project: Uuid, s': State, k: string)
    requires Coherent(projects, s) && WatchProjects(projects, s.watchers) && project in projects
    requires r.Change? && r.appDomain == projects[project].appDomain
    requires OnlyTouches(s.subscribers, s'.subscribers, project, r.account)
    requires k in s.watchers && s.watchers[k].expiry > s.now
    requires FansOut(projects, s, r, Fresh(projects, s'.subscribers, r.account, None), s'.views)
    ensures k in s'.views && ViewCurrent(projects, s'.subscribers, s.watchers[k], s'.views[k])
  {
    var w := s.watchers[k];
    if IsSelected(projects, w, s.now, r.account, r.appDomain) {
      SelectedIsCurrent(projects, s'.subscribers, w, k, r, s.now, s'.views[k]);
    } else {
      UnconcernedFresh(projects, s.subscribers, s'.subscribers, project, r.account, w.account, AppOf(projects, w));
    }
  }

  lemma ChangeKeepsCoherent(h: Digest, projects: Projects, s: State, r: Request, s': State)
    requires Valid(h, projects, s) && Coherent(projects, s)
    requires r.Change? && Enabled(h, s, Handle(r)) && HandlesChange(projects, s, r, s')
    ensures Valid(h, projects, s') && Coherent(projects, s')
  {
    if CheckChange(projects, s.subscribers, r).Ok? {
      WritesTouchOneRow(h, projects, s, r, s'.subscribers);
      WritesKeepAccounts(s.subscribers, s.now, r.account, r.change, s'.subscribers);
      FanOutKeepsCoherent(projects, s, r, ProjectOf(s.subscribers, r.change).value, s');
    }
  }

  lemma WatchedApp(projects: Projects, s: State, r: Request)
    requires UniqueDomains(projects) && r.Watch? && CheckWatch(projects, s, r).Ok?
    ensures var w := Watcher(r.account, CheckWatch(projects, s, r).value, r.symKey, s.now + DAY);
      && (w.project.Some? ==> w.project.value in projects)
      && AppOf(projects, w) == r.app
  {
  }

  lemma SameWatchers(watchers: map<string, Watcher>, a: string, b: string, project: Uuid)
    requires SameAddress(a, b)
    ensures SameProjectWatchers(watchers, a, project) == SameProjectWatchers(watchers, b, project)
  {
  }

  lemma OneMoreWatcher(watchers: map<string, Watcher>, k: string, w: Watcher, account: string, project: Uuid)
    ensures SameProjectWatchers(watchers[k := w], account, project)
         <= SameProjectWatchers(watchers, account, project) + {k}
    ensures w.project != Some(project) || !SameAddress(w.account, account) ==>
      SameProjectWatchers(watchers[k := w], account, project) <= SameProjectWatchers(watchers, account, project)
  {
  }

  lemma CapOf(watchers: map<string, Watcher>, k: string, w: Watcher, account: string, project: Uuid)
    requires WatchersCapped(watchers) && HasRoom(watchers, w.account, w.project)
    ensures |SameProjectWatchers(watchers[k := w], account, project)| <= SUBSCRIPTION_WATCHER_LIMIT
  {
    var earlier, later := SameProjectWatchers(watchers, account, project),
                          SameProjectWatchers(watchers[k := w], account, project);
    OneMoreWatcher(watchers, k, w, account, project);
    if w.project == Some(project) && SameAddress(w.account, account) {
      SameWatchers(watchers, w.account, account, project);
      SubsetSize(later, earlier + {k});
    } else {
      SubsetSize(later, earlier);
    }
  }

  lemma CapKept(watchers: map<string, Watcher>, k: string, w: Watcher)
    requires WatchersCapped(watchers) && HasRoom(watchers, w.account, w.project)
    ensures WatchersCapped(watchers[k := w])
  {
    var after := watchers[k := w];
    forall account: string, project: Uuid
      ensures |SameProjectWatchers(after, account, project)| <= SUBSCRIPTION_WATCHER_LIMIT
    {
      CapOf(watchers, k, w, account, project);
    }
  }

  lemma NewWatcherIsCurrent(projects: Projects, s: State, r: Request, s': State)
    requires UniqueDomains(projects) && Coherent(projects, s)
    requires r.Watch? && CheckWatch(projects, s, r).Ok? && HandlesWatch(projects, s, r, s')
    ensures Coherent(projects, s')
  {
    WatchedApp(projects, s, r);
    assert SameAddress(r.account, r.account);
    assert ViewCurrent(projects, s'.subscribers, s'.watchers[r.didKey], s'.views[r.didKey]);
    forall k | k in s'.watchers && s'.watchers[k].expiry > s'.now && k != r.didKey
      ensures k in s'.views && ViewCurrent(projects, s'.subscribers, s'.watchers[k], s'.views[k])
    {
      assert s'.watchers[k] == s.watchers[k];
    }
  }

  lemma WatchKeepsCoherent(h: Digest, projects: Projects, s: State, r: Request, s': State)
    requires UniqueDomains(projects) && Valid(h, projects, s) && Coherent(projects, s)
    requires r.Watch? && HandlesWatch(projects, s, r, s')
    ensures Valid(h, projects, s') && Coherent(projects, s')
  {
    if CheckWatch(projects, s, r).Ok? {
      NewWatcherIsGood(projects, s, r, s');
      NewWatcherIsCurrent(projects, s, r, s');
    }
  }

  lemma NewWatcherIsGood(projects: Projects, s: State, r: Request, s': State)
    requires UniqueDomains(projects) && WatchersGood(projects, s.watchers)
    requires r.Watch? && CheckWatch(projects, s, r).Ok? && HandlesWatch(projects, s, r, s')
    ensures WatchersGood(projects, s'.watchers)
  {
    WatchedApp(projects, s, r);
    CapKept(s.watchers, r.didKey, s'.watchers[r.didKey]);
  }

  lemma ExpiryKeepsCap(watchers: map<string, Watcher>, kept: map<string, Watcher>)
    requires WatchersCapped(watchers) && forall k :: k in kept ==> k in watchers && watchers[k] == kept[k]
    ensures WatchersCapped(kept)
  {
    forall account: string, project: Uuid
      ensures |SameProjectWatchers(kept, account, project)| <= SUBSCRIPTION_WATCHER_LIMIT
    {
      SubsetSize(SameProjectWatchers(kept, account, project), SameProjectWatchers(watchers, account, project));
    }
  }

  lemma SubsetSize<T>(a: set<T>, b: set<T>)
    requires a <= b
    ensures |a| <= |b|
  {
    assert b == a + (b - a);
  }

  lemma StepKeepsCoherent(h: Digest, projects: Projects, s: State, step: Step, s': State)
    requires UniqueDomains(projects) && Valid(h, projects, s) && Coherent(projects, s)
    requires Enabled(h, s, step) && Next(projects, s, step, s')
    ensures Valid(h, projects, s') && Coherent(projects, s')
  {
    match step
    case Handle(r) =>
      if r.Watch? {
        WatchKeepsCoherent(h, projects, s, r, s');
      } else {
        ChangeKeepsCoherent(h, projects, s, r, s');
      }
    case DeleteExpired =>
      ExpiryKeepsCap(s.watchers, s'.watchers);
    case Tick(_) =>
  }

  ghost predicate IsRun(h: Digest, projects: Projects, states: seq<State>, steps: seq<Step>) {
    && |states| == |steps| + 1
    && forall i :: 0 <= i < |steps| ==>
      Enabled(h, states[i], steps[i]) && Next(projects, states[i], steps[i], states[i + 1])
  }

  lemma EmptyIsCoherent(h: Digest, projects: Projects, now: nat)
    ensures Valid(h, projects, State(map[], map[], map[], now))
    ensures Coherent(projects, State(map[], map[], map[], now))
  {
    assert forall account: string, project: Uuid :: SameProjectWatchers(map[], account, project) == {};
  }

  /**
   Coherence of watching: over every history of watch, subscribe, update and delete requests, of clean-ups and of
   passing time, every watcher that has not expired last received what a fresh query would find for it now, and no
   account has more than 25 watchers of one app.
   */
  lemma {:induction false} WatchersCoherent(h: Digest, projects: Projects, states: seq<State>, steps: seq<Step>, i: nat)
    requires UniqueDomains(projects) && IsRun(h, projects, states, steps) && i < |states|
    requires Valid(h, projects, states[0]) && Coherent(projects, states[0])
    ensures Valid(h, projects, states[i]) && Coherent(projects, states[i])
  {
    if i > 0 {
      WatchersCoherent(h, projects, states, steps, i - 1);
      StepKeepsCoherent(h, projects, states[i - 1], steps[i - 1], states[i]);
    }
  }

  /** In particular over every history of a server that starts with empty tables. */
  lemma CoherentFromEmpty(h: Digest, projects: Projects, states: seq<State>, steps: seq<Step>, i: nat)
    requires UniqueDomains(projects) && IsRun(h, projects, states, steps) && i < |states|
    requires states[0] == State(map[], map[], map[], states[0].now)
    ensures Valid(h, projects, states[i]) && Coherent(projects, states[i])
  {
    EmptyIsCoherent(h, projects, states[0].now);
    WatchersCoherent(h, projects, states, steps, i);
  }

  // ----- Renewing -----

  lemma WatchOutcome(projects: Projects, s: State, r: Request, project: Option<Uuid>)
    requires UniqueDomains(projects) && r.Watch? && CheckAppAuthorization(r.authorized, r.app)
    requires WatchesAs(projects, r.app, project)
    ensures CheckWatch(projects, s, r) ==
      if HasRoom(s.watchers, r.account, project) then Ok(project) else Err(WatcherLimitReached)
  {
    if r.app.Some? {
      assert ProjectNamed(projects, r.app) == {project.value};
    }
  }

  /**
   Renewing exactly: a client that watches an app for an account can watch it again if and only if at most 23 others,
   expired ones included, watch the same, since it counts itself against the limit of 25.
   */
  lemma RenewsExactly(projects: Projects, s: State, r: Request, project: Uuid)
    requires UniqueDomains(projects) && r.Watch? && CheckAppAuthorization(r.authorized, r.app)
    requires r.app.Some? && WatchesAs(projects, r.app, Some(project))
    requires r.didKey in SameProjectWatchers(s.watchers, r.account, project)
    ensures
      var others := SameProjectWatchers(s.watchers, r.account, project) - {r.didKey};
      CheckWatch(projects, s, r) == if |others| <= 23 then Ok(Some(project)) else Err(WatcherLimitReached)
  {
    WatchOutcome(projects, s, r, Some(project));
    assert SameProjectWatchers(s.watchers, r.account, project)
        == SameProjectWatchers(s.watchers, r.account, project) - {r.didKey} + {r.didKey};
  }

  function Key(n: nat): string {
    seq(n, i => 'k')
  }

  /** A table of `n` watchers alike, with different keys. */
  function AlikeWatchers(n: nat, w: Watcher): map<string, Watcher> {
    if n == 0 then map[] else AlikeWatchers(n - 1, w)[Key(n) := w]
  }

  lemma {:induction false} AlikeKeys(n: nat, w: Watcher)
    ensures |AlikeWatchers(n, w).Keys| == n
    ensures forall k :: k in AlikeWatchers(n, w) ==> 1 <= |k| <= n && AlikeWatchers(n, w)[k] == w
  {
    if n > 0 {
      AlikeKeys(n - 1, w);
      assert AlikeWatchers(n, w).Keys == AlikeWatchers(n - 1, w).Keys + {Key(n)};
    }
  }

  lemma AlikeCount(n: nat, w: Watcher, project: Uuid)
    requires w.project == Some(project)
    ensures |SameProjectWatchers(AlikeWatchers(n, w), w.account, project)| == n
  {
    AlikeKeys(n, w);
    assert SameProjectWatchers(AlikeWatchers(n, w), w.account, project) == AlikeWatchers(n, w).Keys;
  }

  /** One of 25 watchers of an app asks to watch it again, and is refused, even if all of them have expired. */
  lemma RenewalRefused(projects: Projects, r: Request, project: Uuid, expiry: nat, now: nat)
    requires UniqueDomains(projects) && r.Watch? && CheckAppAuthorization(r.authorized, r.app)
    requires r.app.Some? && WatchesAs(projects, r.app, Some(project)) && r.didKey == Key(25)
    ensures
      var w := Watcher(r.account, Some(project), r.symKey, expiry);
      var s := State(map[], AlikeWatchers(25, w), map[], now);
      r.didKey in s.watchers && CheckWatch(projects, s, r) == Err(WatcherLimitReached)
  {
    var w := Watcher(r.account, Some(project), r.symKey, expiry);
    var s := State(map[], AlikeWatchers(25, w), map[], now);
    AlikeCount(25, w, project);
    assert AlikeWatchers(25, w) == AlikeWatchers(24, w)[Key(25) := w];
    WatchOutcome(projects, s, r, Some(project));
  }

  /** A watcher of one account and app has seen nothing else: no other address, and no other app. */
  lemma ViewsStayInScope(projects: Projects, s: State, k: string, x: Subscription)
    requires Coherent(projects, s) && k in s.watchers && s.watchers[k].expiry > s.now && x in s.views[k]
    ensures SameAddress(x.account, s.watchers[k].account)
    ensures AppOf(projects, s.watchers[k]).Some? ==> Some(x.appDomain) == AppOf(projects, s.watchers[k])
  {
    var w := s.watchers[k];
    var list := Fresh(projects, s.subscribers, w.account, AppOf(projects, w));
    var stamp :| SameAddress(stamp, w.account) && s.views[k] == Stamp(list, stamp);
    var y :| y in list && x == y.(account := stamp);
  }
}
