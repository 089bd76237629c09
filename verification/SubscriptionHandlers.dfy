/**
 The handlers of the relay messages that watch and change subscriptions, as they run: queries return rows in any
 order, lists are built in loops, and the tables are updated in place.
 */
module SubscriptionHandlers {
  import opened Wrappers
  import opened Ordering
  import opened Watchers
  import opened Access

  /** `.map(|sub| NotifyServerSubscription { account, ..sub })` */
  function Restamp(list: seq<Subscription>, account: string): seq<Subscription> {
    seq(|list|, i requires 0 <= i < |list| => list[i].(account := account))
  }

  lemma RestampElements(list: seq<Subscription>, account: string)
    ensures Elements(Restamp(list, account)) == Stamp(Elements(list), account)
  {
    forall s ensures s in Restamp(list, account) <==> s in Stamp(Elements(list), account) {
      if s in Stamp(Elements(list), account) {
        var x :| x in Elements(list) && s == x.(account := account);
        var i :| 0 <= i < |list| && list[i] == x;
        assert Restamp(list, account)[i] == s;
      }
      if s in Restamp(list, account) {
        var i :| 0 <= i < |list| && Restamp(list, account)[i] == s;
        assert list[i] in Elements(list);
      }
    }
  }

  /** `.filter(|sub| sub.app_domain == app_domain)` */
  function FilterApp(list: seq<Subscription>, appDomain: string): seq<Subscription> {
    if list == [] then
      []
    else
      (if list[0].appDomain == appDomain then [list[0]] else []) + FilterApp(list[1..], appDomain)
  }

  lemma {:induction false} FilterAppElements(list: seq<Subscription>, appDomain: string)
    ensures Elements(FilterApp(list, appDomain)) == OfApp(Elements(list), appDomain)
  {
    if list != [] {
      FilterAppElements(list[1..], appDomain);
      forall s ensures s in FilterApp(list, appDomain) <==> s in OfApp(Elements(list), appDomain) {
        assert s in FilterApp(list[1..], appDomain) <==> s in OfApp(Elements(list[1..]), appDomain);
      }
    }
  }

  ghost function Wrapped(projects: Projects, subscribers: map<Uuid, Subscriber>, ids: set<Uuid>): set<Subscription> {
    set id | id in ids && id in subscribers && subscribers[id].project in projects :: Wrap(projects, subscribers[id])
  }

  lemma WrappedIsFresh(projects: Projects, subscribers: map<Uuid, Subscriber>, account: string, app: Option<string>)
    ensures Wrapped(projects, subscribers, WantedIds(projects, subscribers, account, app))
         == Fresh(projects, subscribers, account, app)
  {
  }

  lemma OneMoreElement<T(!new)>(xs: seq<T>, i: nat)
    requires i < |xs|
    ensures Elements(xs[..i + 1]) == Elements(xs[..i]) + {xs[i]}
  {
    assert xs[..i + 1] == xs[..i] + [xs[i]];
  }

  lemma OneMoreWrapped(projects: Projects, subscribers: map<Uuid, Subscriber>, ids: set<Uuid>, id: Uuid)
    requires id in subscribers && subscribers[id].project in projects
    ensures Wrapped(projects, subscribers, ids + {id})
         == Wrapped(projects, subscribers, ids) + {Wrap(projects, subscribers[id])}
  {
  }

  // ----- One entry for each row -----

  /** The list has the entries of these rows, in this order. */
  ghost predicate Lists(projects: Projects, subscribers: map<Uuid, Subscriber>, rows: seq<Uuid>,
                        list: seq<Subscription>)
  {
    && |list| == |rows|
    && forall i :: 0 <= i < |rows| ==>
         && rows[i] in subscribers && subscribers[rows[i]].project in projects
         && list[i] == Wrap(projects, subscribers[rows[i]])
  }

  /** The loop over the rows of a query. */
  ghost predicate Collected(projects: Projects, subscribers: map<Uuid, Subscriber>, rows: seq<Uuid>,
                            list: seq<Subscription>)
  {
    Lists(projects, subscribers, rows, list) && Elements(list) == Wrapped(projects, subscribers, Elements(rows))
  }

  lemma OneMoreCollected(projects: Projects, subscribers: map<Uuid, Subscriber>, rows: seq<Uuid>, i: nat,
                         list: seq<Subscription>)
    requires i < |rows| && Collected(projects, subscribers, rows[..i], list)
    requires rows[i] in subscribers && subscribers[rows[i]].project in projects
    ensures Collected(projects, subscribers, rows[..i + 1], list + [Wrap(projects, subscribers[rows[i]])])
  {
    OneMoreElement(rows, i);
    OneMoreWrapped(projects, subscribers, Elements(rows[..i]), rows[i]);
    ElementsSnoc(list, Wrap(projects, subscribers[rows[i]]));
    OneMoreListed(projects, subscribers, rows, i, list);
  }

  lemma OneMoreListed(projects: Projects, subscribers: map<Uuid, Subscriber>, rows: seq<Uuid>, i: nat,
                      list: seq<Subscription>)
    requires i < |rows| && Lists(projects, subscribers, rows[..i], list)
    requires rows[i] in subscribers && subscribers[rows[i]].project in projects
    ensures Lists(projects, subscribers, rows[..i + 1], list + [Wrap(projects, subscribers[rows[i]])])
  {
  }

  lemma ElementsSnoc<T(!new)>(xs: seq<T>, x: T)
    ensures Elements(xs + [x]) == Elements(xs) + {x}
  {
  }

  lemma DistinctSize<T>(xs: seq<T>, s: set<T>)
    requires Distinct(xs) && forall x :: x in s <==> x in xs
    ensures |xs| == |s|
  {
    if xs == [] {
      assert s == {};
    } else {
      var first := xs[0];
      forall x ensures x in s - {first} <==> x in xs[1..] {
        assert x in xs[1..] ==> exists i :: 1 <= i < |xs| && xs[i] == x;
      }
      DistinctSize(xs[1..], s - {first});
    }
  }

  /** Filtering the entries filters the rows. */
  lemma {:induction false} FilterLists(projects: Projects, subscribers: map<Uuid, Subscriber>, rows: seq<Uuid>,
                                       list: seq<Subscription>, appDomain: string)
      returns (kept: seq<Uuid>)
    requires Lists(projects, subscribers, rows, list) && Distinct(rows)
    ensures Lists(projects, subscribers, kept, FilterApp(list, appDomain)) && Distinct(kept)
    ensures forall id :: id in kept <==>
      && id in rows && id in subscribers && subscribers[id].project in projects
      && projects[subscribers[id].project].appDomain == appDomain
    decreases |rows|
  {
    if rows == [] {
      kept := [];
    } else {
      var first := rows[0];
      var later := FilterLists(projects, subscribers, rows[1..], list[1..], appDomain);
      kept := (if list[0].appDomain == appDomain then [first] else []) + later;
      forall id ensures id in rows <==> id == first || id in rows[1..] {
      }
      assert first !in rows[1..];
    }
  }

  /** The list of one app has one entry for each row of the query for that app. */
  lemma FilterSize(projects: Projects, subscribers: map<Uuid, Subscriber>, account: string, rows: seq<Uuid>,
                   list: seq<Subscription>, appDomain: string)
    requires Lists(projects, subscribers, rows, list) && Distinct(rows)
    requires Elements(rows) == WantedIds(projects, subscribers, account, None)
    ensures |FilterApp(list, appDomain)| == |WantedIds(projects, subscribers, account, Some(appDomain))|
  {
    var kept := FilterLists(projects, subscribers, rows, list, appDomain);
    forall id ensures id in kept <==> id in WantedIds(projects, subscribers, account, Some(appDomain)) {
      assert id in rows <==> id in Elements(rows);
    }
    DistinctSize(kept, WantedIds(projects, subscribers, account, Some(appDomain)));
  }

  /** A message for a watcher: its key, and the list to send. */
  type Push = (string, seq<Subscription>)

  ghost predicate PushFor(watchers: map<string, Watcher>, all: set<Subscription>, appDomain: string, p: Push) {
    && p.0 in watchers
    && Elements(p.1) == Stamp(ListFor(all, watchers[p.0], appDomain), watchers[p.0].account)
  }

  ghost function PushedKeys(pushes: seq<Push>): set<string> {
    set p | p in pushes :: p.0
  }

  ghost predicate AllPushFor(watchers: map<string, Watcher>, all: set<Subscription>, appDomain: string,
                             pushes: seq<Push>)
  {
    forall p :: p in pushes ==> PushFor(watchers, all, appDomain, p)
  }

  /** Lists for all apps have `all` entries, and lists for one app `ofApp`. */
  ghost predicate Sized(watchers: map<string, Watcher>, pushes: seq<Push>, all: nat, ofApp: nat) {
    forall p :: p in pushes && p.0 in watchers ==> |p.1| == if watchers[p.0].project.Some? then ofApp else all
  }

  /** Under the newer protocol the client that made the change gets no push. */
  predicate Skips(source: string, mjv: string, k: string) {
    k == source && mjv != "0"
  }

  lemma MorePushedKeys(pushes: seq<Push>, p: Push)
    ensures PushedKeys(pushes + [p]) == PushedKeys(pushes) + {p.0}
  {
    assert p in pushes + [p];
  }

  ghost predicate IsPushed(pushes: seq<Push>, k: string, view: set<Subscription>) {
    exists p :: p in pushes && p.0 == k && view == Elements(p.1)
  }

  /** What clients have received last, after some pushes and perhaps a response to the source. */
  ghost predicate Arrived(before: map<string, set<Subscription>>, pushes: seq<Push>, source: string, responded: bool,
                          response: set<Subscription>, after: map<string, set<Subscription>>)
  {
    && (forall k :: k in PushedKeys(pushes) && k != source ==> k in after && IsPushed(pushes, k, after[k]))
    && (forall k :: k in before && !ReceivedNew(pushes, source, responded, k) ==> k in after && after[k] == before[k])
    && (responded ==> source in after)
    && (responded ==> after[source] == response || IsPushed(pushes, source, after[source]))
  }

  ghost predicate ReceivedNew(pushes: seq<Push>, source: string, responded: bool, k: string) {
    k in PushedKeys(pushes) || (k == source && responded)
  }

  lemma ArrivedFansOut(projects: Projects, s: State, r: Request, all: set<Subscription>, response: set<Subscription>,
                       pushes: seq<Push>, selected: set<string>, views: map<string, set<Subscription>>)
    requires r.Change?
    requires forall k :: k in selected <==>
      k in s.watchers && IsSelected(projects, s.watchers[k], s.now, r.account, r.appDomain)
    requires AllPushFor(s.watchers, all, r.appDomain, pushes)
    requires forall k :: k in PushedKeys(pushes) <==> k in selected && !Skips(r.didKey, r.mjv, k)
    requires r.didKey in selected ==> response == Stamp(ListFor(all, s.watchers[r.didKey], r.appDomain), r.account)
    requires Arrived(s.views, pushes, r.didKey, r.didKey in selected, response, views)
    ensures FansOut(projects, s, r, all, views)
  {
    forall k | k in selected
      ensures k in views && Delivered(all, k, s.watchers[k], r, views[k])
    {
      var w := s.watchers[k];
      if k == r.didKey && views[k] == response {
        assert IsStamp(k, w, r, r.account);
      } else {
        assert IsPushed(pushes, k, views[k]);
        var p :| p in pushes && p.0 == k && views[k] == Elements(p.1);
        assert PushFor(s.watchers, all, r.appDomain, p);
        assert k in PushedKeys(pushes);
        assert IsStamp(k, w, r, w.account);
      }
    }
  }

  /**
   The loop over the selected watchers. A key is visited once, so the assertion about the source never fails, and
   each watcher gets one message; under the newer protocol the source gets none.
   */
  method ListsFor(watchers: map<string, Watcher>, selected: seq<string>, all: seq<Subscription>,
                  ofApp: seq<Subscription>, source: string, mjv: string, account: string, appDomain: string)
      returns (sourceSubscriptions: Option<seq<Subscription>>, pushes: seq<Push>)
    requires forall i :: 0 <= i < |selected| ==> selected[i] in watchers
    requires Distinct(selected)
    requires Elements(ofApp) == OfApp(Elements(all), appDomain)
    ensures sourceSubscriptions.Some? <==> source in selected
    ensures sourceSubscriptions.Some? ==>
      && Elements(sourceSubscriptions.value) == Stamp(ListFor(Elements(all), watchers[source], appDomain), account)
      && |sourceSubscriptions.value| == if watchers[source].project.Some? then |ofApp| else |all|
    ensures AllPushFor(watchers, Elements(all), appDomain, pushes) && Sized(watchers, pushes, |all|, |ofApp|)
    ensures forall k :: k in PushedKeys(pushes) <==> k in selected && !Skips(source, mjv, k)
    ensures |pushes| == |selected| - (if source in selected && mjv != "0" then 1 else 0)
  {
    sourceSubscriptions, pushes := None, [];
    for i := 0 to |selected|
      invariant sourceSubscriptions.Some? <==> source in selected[..i]
      invariant sourceSubscriptions.Some? ==>
        && Elements(sourceSubscriptions.value) == Stamp(ListFor(Elements(all), watchers[source], appDomain), account)
        && |sourceSubscriptions.value| == if watchers[source].project.Some? then |ofApp| else |all|
      invariant AllPushFor(watchers, Elements(all), appDomain, pushes) && Sized(watchers, pushes, |all|, |ofApp|)
      invariant forall k :: k in PushedKeys(pushes) <==> k in selected[..i] && !Skips(source, mjv, k)
      invariant |pushes| == i - (if source in selected[..i] && mjv != "0" then 1 else 0)
    {
      var k := selected[i];
      assert selected[..i + 1] == selected[..i] + [k] && k !in selected[..i];
      var w := watchers[k];
      var subscriptions := if w.project.Some? then ofApp else all;
      if source == k {
        assert sourceSubscriptions == None;
        sourceSubscriptions := Some(Restamp(subscriptions, account));
        RestampElements(subscriptions, account);
      }
      if source != k || mjv == "0" {
        RestampElements(subscriptions, w.account);
        MorePushedKeys(pushes, (k, Restamp(subscriptions, w.account)));
        pushes := pushes + [(k, Restamp(subscriptions, w.account))];
      }
    }
    assert selected[..|selected|] == selected;
  }

  /** The write and the fan-out are the step. */
  lemma ChangeIsHandled(projects: Projects, s: State, mid: State, t: State, r: Request)
    requires r.Change? && CheckChange(projects, s.subscribers, r).Ok?
    requires Writes(s.subscribers, s.now, r.account, r.change, mid.subscribers)
    requires mid == s.(subscribers := mid.subscribers) && t == mid.(views := t.views)
    requires FansOut(projects, mid, r, Fresh(projects, mid.subscribers, r.account, None), t.views)
    ensures Next(projects, s, Handle(r), t)
  {
  }

  lemma WritesRow(rows: map<Uuid, Subscriber>, now: nat, account: string, change: ChangeKind, id: Uuid)
    requires change.Subscribe? && UniqueSubscribers(rows) && IsRowOf(rows, id, change.project, account)
    ensures Writes(rows, now, account, change, rows[id := rows[id].(scope := change.scope, expiry := now + 30 * DAY)])
  {
    OneRowOf(rows, change.project, account);
  }

  class NotifyServer {
    const projects: Projects
    var subscribers: map<Uuid, Subscriber>
    var watchers: map<string, Watcher>
    var now: nat

    /** The list each client received last. */
    ghost var views: map<string, set<Subscription>>

    constructor (projects: Projects)
      ensures this.projects == projects && Now() == State(map[], map[], map[], 0)
    {
      this.projects := projects;
      subscribers, watchers, views, now := map[], map[], map[], 0;
    }

    ghost function Now(): State
      reads this
    {
      State(subscribers, watchers, views, now)
    }

    /** The rows of the query, in any order, with one entry for each. */
    method CollectSubscriptions(account: string, app: Option<string>)
        returns (list: seq<Subscription>, ghost rows: seq<Uuid>)
      ensures Elements(list) == Fresh(projects, subscribers, account, app)
      ensures Elements(rows) == WantedIds(projects, subscribers, account, app) && Distinct(rows)
      ensures Lists(projects, subscribers, rows, list) && |list| == Found(account, app)
    {
      var found := InSomeOrder(WantedIds(projects, subscribers, account, app));
      rows := found;
      WrappedIsFresh(projects, subscribers, account, app);
      list := [];
      for i := 0 to |found|
        invariant Collected(projects, subscribers, found[..i], list)
      {
        assert found[i] in Elements(found);
        OneMoreCollected(projects, subscribers, found, i, list);
        list := list + [Wrap(projects, subscribers[found[i]])];
      }
      assert found[..|found|] == found;
    }

    /** How many rows a query finds. */
    ghost function Found(account: string, app: Option<string>): nat
      reads this
    {
      |WantedIds(projects, subscribers, account, app)|
    }

    function SelectedKeys(account: string, appDomain: string): set<string>
      reads this
    {
      set k | k in watchers && IsSelected(projects, watchers[k], now, account, appDomain)
    }

    /** The list in the response of a change: the watcher's own when the client watches, else the app's. */
    ghost function ResponseList(source: string, account: string, appDomain: string): set<Subscription>
      reads this
    {
      var all := Fresh(projects, subscribers, account, None);
      if source in SelectedKeys(account, appDomain) then
        Stamp(ListFor(all, watchers[source], appDomain), account)
      else
        Fresh(projects, subscribers, account, Some(appDomain))
    }

    /** The app of that list, or none for a list of all apps. */
    ghost function ResponseApp(source: string, account: string, appDomain: string): Option<string>
      reads this
    {
      if source in SelectedKeys(account, appDomain) && watchers[source].project.None? then None else Some(appDomain)
    }

    method PrepareSubscriptionWatchers(source: string, mjv: string, account: string, appDomain: string)
        returns (response: seq<Subscription>, pushes: seq<Push>)
      ensures Elements(response) == ResponseList(source, account, appDomain)
      ensures |response| == Found(account, ResponseApp(source, account, appDomain))
      ensures Sized(watchers, pushes, Found(account, None), Found(account, Some(appDomain)))
      ensures AllPushFor(watchers, Fresh(projects, subscribers, account, None), appDomain, pushes)
      ensures forall k :: k in PushedKeys(pushes) <==> k in SelectedKeys(account, appDomain) && !Skips(source, mjv, k)
      ensures |pushes| == |SelectedKeys(account, appDomain)|
        - (if source in SelectedKeys(account, appDomain) && mjv != "0" then 1 else 0)
    {
      var all;
      ghost var rows;
      all, rows := CollectSubscriptions(account, None);
      var ofApp := FilterApp(all, appDomain);
      FilterSize(projects, subscribers, account, rows, all, appDomain);
      FilterAppElements(all, appDomain);
      FilterIsQuery(projects, subscribers, account, appDomain);
      var selected := InSomeOrder(SelectedKeys(account, appDomain));
      forall i | 0 <= i < |selected| ensures selected[i] in watchers {
        assert selected[i] in Elements(selected);
      }
      var sourceSubscriptions;
      sourceSubscriptions, pushes := ListsFor(watchers, selected, all, ofApp, source, mjv, account, appDomain);
      response := if sourceSubscriptions.Some? then sourceSubscriptions.value else ofApp;
    }

    // ----- Writes -----

    method UpsertSubscriber(project: Uuid, account: string, scope: set<Uuid>, symKey: string, topic: string,
                            newId: Uuid)
        returns (id: Uuid, inserted: bool)
      requires UniqueSubscribers(subscribers) && newId !in subscribers
      modifies this`subscribers
      ensures Writes(old(subscribers), now, account, Subscribe(project, scope, symKey, topic, newId), subscribers)
      ensures IsRowOf(subscribers, id, project, account)
      ensures inserted <==> !exists other :: IsRowOf(old(subscribers), other, project, account)
      ensures subscribers.Keys == old(subscribers).Keys + {id}
    {
      ghost var before := subscribers;
      if row :| row in subscribers && subscribers[row].project == project &&
                SameAddress(subscribers[row].account, account) {
        assert IsRowOf(subscribers, row, project, account);
        id, inserted := row, false;
        subscribers := subscribers[id := subscribers[id].(scope := scope, expiry := now + 30 * DAY)];
        WritesRow(before, now, account, Subscribe(project, scope, symKey, topic, newId), id);
      } else {
        assert forall other :: !IsRowOf(subscribers, other, project, account);
        id, inserted := newId, true;
        subscribers := subscribers[id := Subscriber(project, account, symKey, topic, scope, now + 30 * DAY)];
      }
    }

    method UpdateSubscriber(id: Uuid, scope: set<Uuid>)
      requires id in subscribers
      modifies this`subscribers
      ensures Writes(old(subscribers), now, "", Update(id, scope), subscribers)
    {
      subscribers := subscribers[id := subscribers[id].(scope := scope, expiry := now + 30 * DAY)];
    }

    method DeleteSubscriber(id: Uuid)
      modifies this`subscribers
      ensures Writes(old(subscribers), now, "", Delete(id), subscribers)
    {
      subscribers := subscribers - {id};
    }

    method UpsertSubscriptionWatcher(account: string, project: Option<Uuid>, didKey: string, symKey: string,
                                     expiry: nat)
        returns (ok: bool)
      modifies this`watchers
      ensures ok <==> HasRoom(old(watchers), account, project)
      ensures watchers == if ok then old(watchers)[didKey := Watcher(account, project, symKey, expiry)]
                          else old(watchers)
    {
      var count := if project.Some? then |SameProjectWatchers(watchers, account, project.value)| else 0;
      ok := count < SUBSCRIPTION_WATCHER_LIMIT;
      if ok {
        watchers := watchers[didKey := Watcher(account, project, symKey, expiry)];
      }
    }

    /** `delete_expired_subscription_watchers`. */
    method DeleteExpiredSubscriptionWatchers()
      modifies this`watchers
      ensures Next(projects, old(Now()), DeleteExpired, Now())
      ensures forall k :: k in watchers <==> k in old(watchers) && old(watchers)[k].expiry > now
      ensures forall k :: k in watchers ==> watchers[k] == old(watchers)[k]
    {
      watchers := map k | k in watchers && watchers[k].expiry > now :: watchers[k];
    }

    method Wait(elapsed: nat)
      modifies this`now
      ensures Next(projects, old(Now()), Tick(elapsed), Now())
    {
      now := now + elapsed;
    }

    // ----- Handlers -----

    /** `None` for an app that no project has, and all apps when none is named. */
    method GetProject(app: Option<string>) returns (found: Option<Option<Uuid>>)
      ensures found.Some? ==> WatchesAs(projects, app, found.value)
      ensures found.None? ==> app.Some? && ProjectNamed(projects, app) == {}
    {
      if app.None? {
        return Some(None);
      }
      if p :| p in projects && projects[p].appDomain == app.value {
        found := Some(Some(p));
      } else {
        found := None;
      }
    }

    method HandleWatchSubscriptions(r: Request) returns (result: Result<seq<Subscription>, RequestError>)
      requires UniqueDomains(projects) && r.Watch?
      modifies this`watchers, this`views
      ensures Next(projects, old(Now()), Handle(r), Now())
      ensures result.Ok? <==> old(MayWatch(projects, Now(), r))
      ensures result.Err? ==> watchers == old(watchers) && views == old(views)
      ensures result.Err? ==> result.error == old(CheckWatch(projects, Now(), r)).error
      ensures result.Ok? ==>
        && r.didKey in views && Elements(result.value) == views[r.didKey]
        && |result.value| == Found(r.account, r.app)
    {
      WatchAllowedExactly(projects, Now(), r);
      if !CheckAppAuthorization(r.authorized, r.app) {
        return Err(AppNotAuthorized);
      }
      var collected;
      ghost var rows;
      collected, rows := CollectSubscriptions(r.account, r.app);
      var subscriptions := Restamp(collected, r.account);
      RestampElements(collected, r.account);
      var project := GetProject(r.app);
      if project.None? {
        return Err(AppDomainNotFound);
      }
      var ok := Register(r, project.value, subscriptions);
      result := if ok then Ok(subscriptions) else Err(WatcherLimitReached);
    }

    /** The upsert, and the response that a registered client receives. */
    method Register(r: Request, project: Option<Uuid>, subscriptions: seq<Subscription>) returns (ok: bool)
      requires UniqueDomains(projects) && r.Watch? && CheckAppAuthorization(r.authorized, r.app)
      requires WatchesAs(projects, r.app, project)
      requires Elements(subscriptions) == Stamp(Fresh(projects, subscribers, r.account, r.app), r.account)
      modifies this`watchers, this`views
      ensures HandlesWatch(projects, old(Now()), r, Now())
      ensures old(CheckWatch(projects, Now(), r)) == if ok then Ok(project) else Err(WatcherLimitReached)
      ensures ok ==> r.didKey in views && views[r.didKey] == Elements(subscriptions)
    {
      WatchOutcome(projects, Now(), r, project);
      ok := UpsertSubscriptionWatcher(r.account, project, r.didKey, r.symKey, now + DAY);
      if ok {
        views := views[r.didKey := Elements(subscriptions)];
      }
    }

    /** `send_to_subscription_watchers`: each message is received by its watcher. */
    method SendToSubscriptionWatchers(pushes: seq<Push>)
      modifies this`views
      ensures views.Keys == old(views).Keys + PushedKeys(pushes)
      ensures forall k :: k in PushedKeys(pushes) ==> IsPushed(pushes, k, views[k])
      ensures forall k :: k in old(views) && k !in PushedKeys(pushes) ==> views[k] == old(views)[k]
    {
      for i := 0 to |pushes|
        invariant views.Keys == old(views).Keys + PushedKeys(pushes[..i])
        invariant forall k :: k in PushedKeys(pushes[..i]) ==> IsPushed(pushes, k, views[k])
        invariant forall k :: k in old(views) && k !in PushedKeys(pushes[..i]) ==> views[k] == old(views)[k]
      {
        assert pushes[i] in pushes;
        assert pushes[..i + 1] == pushes[..i] + [pushes[i]];
        MorePushedKeys(pushes[..i], pushes[i]);
        views := views[pushes[i].0 := Elements(pushes[i].1)];
      }
      assert pushes[..|pushes|] == pushes;
    }

    /** A response is a list for the client when the client watches this account and app. */
    ghost method Respond(r: Request, response: seq<Subscription>)
      requires r.Change?
      modifies this`views
      ensures views == if r.didKey in SelectedKeys(r.account, r.appDomain)
                       then old(views)[r.didKey := Elements(response)] else old(views)
    {
      if r.didKey in SelectedKeys(r.account, r.appDomain) {
        views := views[r.didKey := Elements(response)];
      }
    }

    /** Whether the pushes or the response arrive first is up to the network. */
    method Deliver(r: Request, response: seq<Subscription>, pushes: seq<Push>, pushesFirst: bool)
      requires r.Change?
      modifies this`views
      ensures Arrived(old(views), pushes, r.didKey, r.didKey in SelectedKeys(r.account, r.appDomain),
                      Elements(response), views)
    {
      if pushesFirst {
        SendToSubscriptionWatchers(pushes);
        Respond(r, response);
      } else {
        Respond(r, response);
        SendToSubscriptionWatchers(pushes);
      }
    }

    method FanOut(r: Request, pushesFirst: bool) returns (response: seq<Subscription>)
      requires r.Change?
      modifies this`views
      ensures Elements(response) == ResponseList(r.didKey, r.account, r.appDomain)
      ensures |response| == Found(r.account, ResponseApp(r.didKey, r.account, r.appDomain))
      ensures FansOut(projects, old(Now()), r, Fresh(projects, subscribers, r.account, None), views)
    {
      ghost var before := Now();
      var pushes;
      response, pushes := PrepareSubscriptionWatchers(r.didKey, r.mjv, r.account, r.appDomain);
      Deliver(r, response, pushes, pushesFirst);
      ArrivedFansOut(projects, before, r, Fresh(projects, subscribers, r.account, None), Elements(response), pushes,
                     SelectedKeys(r.account, r.appDomain), views);
    }

    method WriteChange(r: Request)
      requires r.Change? && CheckChange(projects, subscribers, r).Ok?
      requires UniqueSubscribers(subscribers) && (r.change.Subscribe? ==> r.change.newId !in subscribers)
      modifies this`subscribers
      ensures Writes(old(subscribers), now, r.account, r.change, subscribers)
    {
      match r.change {
        case Subscribe(project, scope, symKey, topic, newId) =>
          var id, inserted := UpsertSubscriber(project, r.account, scope, symKey, topic, newId);
        case Update(id, scope) =>
          UpdateSubscriber(id, scope);
        case Delete(id) =>
          DeleteSubscriber(id);
      }
    }

    /** Subscribe, update and delete. */
    method HandleChange(r: Request, pushesFirst: bool) returns (result: Result<seq<Subscription>, RequestError>)
      requires r.Change? && UniqueSubscribers(subscribers)
      requires r.change.Subscribe? ==> r.change.newId !in subscribers
      modifies this`subscribers, this`views
      ensures Next(projects, old(Now()), Handle(r), Now())
      ensures result.Ok? <==> MayChange(projects, old(subscribers), r)
      ensures result.Err? ==> subscribers == old(subscribers) && views == old(views)
      ensures result.Err? ==> result.error == CheckChange(projects, old(subscribers), r).error
      ensures result.Ok? ==>
        && Elements(result.value) == ResponseList(r.didKey, r.account, r.appDomain)
        && |result.value| == Found(r.account, ResponseApp(r.didKey, r.account, r.appDomain))
    {
      ChangeAllowedExactly(projects, subscribers, r);
      var checked := CheckChange(projects, subscribers, r);
      if checked.Err? {
        return Err(checked.error);
      }
      var response := Change(r, pushesFirst);
      result := Ok(response);
    }

    /** The write and what it sends. */
    method Change(r: Request, pushesFirst: bool) returns (response: seq<Subscription>)
      requires r.Change? && UniqueSubscribers(subscribers) && CheckChange(projects, subscribers, r).Ok?
      requires r.change.Subscribe? ==> r.change.newId !in subscribers
      modifies this`subscribers, this`views
      ensures Next(projects, old(Now()), Handle(r), Now())
      ensures Elements(response) == ResponseList(r.didKey, r.account, r.appDomain)
      ensures |response| == Found(r.account, ResponseApp(r.didKey, r.account, r.appDomain))
    {
      ghost var before := Now();
      WriteChange(r);
      ghost var written := Now();
      response := FanOut(r, pushesFirst);
      ChangeIsHandled(projects, before, written, Now(), r);
    }
  }
}
