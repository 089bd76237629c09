/**
 Keyset pagination of a subscriber's notifications (src/model/helpers.rs).

 A page is what follows a cursor row in one of two orders: newest first, or unread before read and then newest
 first. Between two pages rows may be inserted and marked as read.
 */
module Pagination {
  import opened Wrappers
  import opened Arithmetic
  import opened Ordering

  datatype Row = Row(notification: Uuid, subscriber: Uuid, createdAt: int, isRead: bool)

  type Table = map<Uuid, Row>

  // ----- The query -----

  predicate Less3(a: (int, int, Uuid), b: (int, int, Uuid)) {
    a.0 < b.0 || (a.0 == b.0 && (a.1 < b.1 || (a.1 == b.1 && a.2 < b.2)))
  }

  /** The tuple that the keyset comparison builds for a row. */
  function KeysetTuple(t: Table, unreadFirst: bool, now: int, id: Uuid): (int, int, Uuid)
    requires id in t
  {
    (if unreadFirst && t[id].isRead then 1 else 0, now - t[id].createdAt, id)
  }

  /** The `after` clause. A cursor that is not in the table makes the row comparison NULL, which keeps no row. */
  predicate AfterClause(t: Table, unreadFirst: bool, now: int, cursor: Option<Uuid>, id: Uuid)
    requires id in t
  {
    cursor.Some? ==>
      && cursor.value in t
      && Less3(KeysetTuple(t, unreadFirst, now, cursor.value), KeysetTuple(t, unreadFirst, now, id))
  }

  /** The `ORDER BY` clause: [is_read ASC,] created_at DESC, id ASC. */
  predicate OrderBefore(t: Table, unreadFirst: bool, a: Uuid, b: Uuid) {
    && a in t && b in t
    && if unreadFirst && t[a].isRead != t[b].isRead then
         !t[a].isRead
       else if t[a].createdAt != t[b].createdAt then
         t[a].createdAt > t[b].createdAt
       else
         a < b
  }

  function OrderIn(t: Table, unreadFirst: bool): (Uuid, Uuid) -> bool {
    (a: Uuid, b: Uuid) => OrderBefore(t, unreadFirst, a, b)
  }

  lemma OrderIsTotal(t: Table, unreadFirst: bool, ids: set<Uuid>)
    requires ids <= t.Keys
    ensures StrictTotalOn(OrderIn(t, unreadFirst), ids)
  {
  }

  ghost function Candidates(t: Table, subscriber: Uuid, unreadFirst: bool, now: int, cursor: Option<Uuid>): set<Uuid> {
    set id | id in t && t[id].subscriber == subscriber && AfterClause(t, unreadFirst, now, cursor, id)
  }

  ghost function Sorted(t: Table, unreadFirst: bool, ids: set<Uuid>): seq<Uuid>
    requires ids <= t.Keys
  {
    OrderIsTotal(t, unreadFirst, ids);
    Listing(OrderIn(t, unreadFirst), ids)
  }

  lemma SortedElements(t: Table, unreadFirst: bool, ids: set<Uuid>)
    requires ids <= t.Keys
    ensures Elements(Sorted(t, unreadFirst, ids)) == ids
    ensures StrictTotalOn(OrderIn(t, unreadFirst), ids)
    ensures StrictlySorted(OrderIn(t, unreadFirst), Sorted(t, unreadFirst, ids))
  {
    OrderIsTotal(t, unreadFirst, ids);
    ListingSpec(OrderIn(t, unreadFirst), ids);
  }

  datatype Page = Page(notifications: seq<Uuid>, hasMore: bool, hasMoreUnread: bool)

  /** The rows fetched for one page: one more than asked for, to see whether there are more. */
  ghost function Fetched(t: Table, subscriber: Uuid, limit: nat, after: Option<Uuid>, unreadFirst: bool, now: int)
    : seq<Uuid>
  {
    var selected := Sorted(t, unreadFirst, Candidates(t, subscriber, unreadFirst, now, after));
    selected[..Min(limit + 1, |selected|)]
  }

  /** The second query: is there an unread row after the last one of the page? */
  ghost predicate HasMoreUnread(t: Table, subscriber: Uuid, notifications: seq<Uuid>, unreadFirst: bool, now: int) {
    && notifications != []
    && var last := notifications[|notifications| - 1];
       exists id :: id in Candidates(t, subscriber, unreadFirst, now, Some(last)) && !t[id].isRead
  }

  /** `get_notifications_for_subscriber`, on one snapshot of the table. */
  ghost function GetNotifications(
      t: Table, subscriber: Uuid, limit: nat, after: Option<Uuid>, unreadFirst: bool, now: int): Page
  {
    var fetched := Fetched(t, subscriber, limit, after, unreadFirst, now);
    var notifications := fetched[..Min(limit, |fetched|)];
    Page(notifications, |fetched| > limit, HasMoreUnread(t, subscriber, notifications, unreadFirst, now))
  }

  // ----- One page -----

  /** The row comparison and the ORDER BY clause are the same relation, at every moment. */
  lemma KeysetAgreesWithOrder(t: Table, unreadFirst: bool, now: int, cursor: Uuid, id: Uuid)
    requires id in t
    ensures AfterClause(t, unreadFirst, now, Some(cursor), id) <==> OrderBefore(t, unreadFirst, cursor, id)
  {
  }

  /** The subscriber's rows after a cursor, or all of them. */
  ghost function Following(t: Table, subscriber: Uuid, unreadFirst: bool, cursor: Option<Uuid>): set<Uuid> {
    set id | id in t && t[id].subscriber == subscriber &&
             (cursor.Some? ==> OrderBefore(t, unreadFirst, cursor.value, id))
  }

  ghost function Remaining(t: Table, subscriber: Uuid, unreadFirst: bool, cursor: Option<Uuid>): seq<Uuid> {
    Sorted(t, unreadFirst, Following(t, subscriber, unreadFirst, cursor))
  }

  lemma CandidatesAreFollowing(t: Table, subscriber: Uuid, unreadFirst: bool, now: int, cursor: Option<Uuid>)
    ensures Candidates(t, subscriber, unreadFirst, now, cursor) == Following(t, subscriber, unreadFirst, cursor)
  {
  }

  lemma OrderTransitive(t: Table, unreadFirst: bool, a: Uuid, b: Uuid, c: Uuid)
    requires OrderBefore(t, unreadFirst, a, b) && OrderBefore(t, unreadFirst, b, c)
    ensures OrderBefore(t, unreadFirst, a, c)
  {
  }

  lemma FollowingShrinks(t: Table, subscriber: Uuid, unreadFirst: bool, cursor: Option<Uuid>, next: Uuid)
    requires next in Following(t, subscriber, unreadFirst, cursor)
    ensures Following(t, subscriber, unreadFirst, Some(next))
         == Above(OrderIn(t, unreadFirst), Following(t, subscriber, unreadFirst, cursor), next)
  {
    forall id | OrderBefore(t, unreadFirst, next, id)
      ensures cursor.Some? ==> OrderBefore(t, unreadFirst, cursor.value, id)
    {
      if cursor.Some? {
        OrderTransitive(t, unreadFirst, cursor.value, next, id);
      }
    }
  }

  /** Moving the cursor to the i-th remaining row leaves the rows behind it. */
  lemma RemainingAfter(t: Table, subscriber: Uuid, unreadFirst: bool, cursor: Option<Uuid>, i: nat)
    requires i < |Remaining(t, subscriber, unreadFirst, cursor)|
    ensures Remaining(t, subscriber, unreadFirst, Some(Remaining(t, subscriber, unreadFirst, cursor)[i]))
         == Remaining(t, subscriber, unreadFirst, cursor)[i + 1..]
  {
    var s := Following(t, subscriber, unreadFirst, cursor);
    var next := Remaining(t, subscriber, unreadFirst, cursor)[i];
    SortedElements(t, unreadFirst, s);
    assert next in s by {
      assert next in Remaining(t, subscriber, unreadFirst, cursor);
    }
    ListingAfter(OrderIn(t, unreadFirst), s, i);
    FollowingShrinks(t, subscriber, unreadFirst, cursor, next);
  }

  ghost predicate SomeUnread(t: Table, ids: seq<Uuid>) {
    exists i :: 0 <= i < |ids| && ids[i] in t && !t[ids[i]].isRead
  }

  lemma SomeUnreadAmong(t: Table, ids: seq<Uuid>, s: set<Uuid>)
    requires Elements(ids) == s && s <= t.Keys
    ensures SomeUnread(t, ids) <==> exists id :: id in s && !t[id].isRead
  {
    if id :| id in s && !t[id].isRead {
      assert id in ids;
    }
    if i :| 0 <= i < |ids| && ids[i] in t && !t[ids[i]].isRead {
      assert ids[i] in s;
    }
  }

  lemma HasMoreUnreadExact(t: Table, subscriber: Uuid, notifications: seq<Uuid>, unreadFirst: bool, now: int)
    requires notifications != []
    ensures
      var last := notifications[|notifications| - 1];
      HasMoreUnread(t, subscriber, notifications, unreadFirst, now)
      <==> SomeUnread(t, Remaining(t, subscriber, unreadFirst, Some(last)))
  {
    var last := notifications[|notifications| - 1];
    CandidatesAreFollowing(t, subscriber, unreadFirst, now, Some(last));
    var s := Following(t, subscriber, unreadFirst, Some(last));
    SortedElements(t, unreadFirst, s);
    SomeUnreadAmong(t, Sorted(t, unreadFirst, s), s);
  }

  lemma PageRows(t: Table, subscriber: Uuid, limit: nat, after: Option<Uuid>, unreadFirst: bool, now: int)
    ensures
      var page := GetNotifications(t, subscriber, limit, after, unreadFirst, now);
      var rest := Remaining(t, subscriber, unreadFirst, after);
      && page.notifications == rest[..Min(limit, |rest|)]
      && (page.hasMore <==> |rest| > limit)
  {
    CandidatesAreFollowing(t, subscriber, unreadFirst, now, after);
  }

  /**
   A page is the next `limit` remaining rows, and both flags are exact: more rows remain behind the page, and
   an unread row remains behind it. So more unread rows imply more rows.
   */
  lemma PageExact(t: Table, subscriber: Uuid, limit: nat, after: Option<Uuid>, unreadFirst: bool, now: int)
    ensures
      var page := GetNotifications(t, subscriber, limit, after, unreadFirst, now);
      var rest := Remaining(t, subscriber, unreadFirst, after);
      && page.notifications == rest[..Min(limit, |rest|)]
      && (page.hasMore <==> |rest| > limit)
      && (limit > 0 ==>
            (page.hasMoreUnread <==> SomeUnread(t, rest[Min(limit, |rest|)..])))
      && (page.hasMoreUnread ==> page.hasMore)
  {
    PageRows(t, subscriber, limit, after, unreadFirst, now);
    var rest := Remaining(t, subscriber, unreadFirst, after);
    var k := Min(limit, |rest|);
    if k > 0 {
      HasMoreUnreadExact(t, subscriber, rest[..k], unreadFirst, now);
      RemainingAfter(t, subscriber, unreadFirst, after, k - 1);
    }
  }

  /**
   On a page the newer row stands first, and of two rows of one time the one with the smaller identifier; with unread
   first, every unread row stands before every read one.
   */
  lemma PageInOrder(t: Table, subscriber: Uuid, limit: nat, after: Option<Uuid>, unreadFirst: bool, now: int, i: nat,
                    j: nat)
    requires i < j < |GetNotifications(t, subscriber, limit, after, unreadFirst, now).notifications|
    ensures
      var page := GetNotifications(t, subscriber, limit, after, unreadFirst, now).notifications;
      && page[i] in t && page[j] in t && t[page[i]].subscriber == subscriber
      && (unreadFirst ==> !t[page[i]].isRead || t[page[j]].isRead)
      && (!unreadFirst || t[page[i]].isRead == t[page[j]].isRead ==>
            || t[page[i]].createdAt > t[page[j]].createdAt
            || (t[page[i]].createdAt == t[page[j]].createdAt && page[i] < page[j]))
  {
    PageRows(t, subscriber, limit, after, unreadFirst, now);
    var rest := Remaining(t, subscriber, unreadFirst, after);
    SortedElements(t, unreadFirst, Following(t, subscriber, unreadFirst, after));
    assert rest[i] in Elements(rest);
    assert OrderIn(t, unreadFirst)(rest[i], rest[j]);
  }

  // ----- All pages of one snapshot -----

  /** The client follows `after` = last id while `hasMore`. Each request has its own time. */
  ghost predicate IsTraversal(t: Table, subscriber: Uuid, limit: nat, unreadFirst: bool, after: Option<Uuid>,
                              nows: seq<int>, pages: seq<Page>)
    decreases |pages|
  {
    && |pages| == |nows| > 0
    && pages[0] == GetNotifications(t, subscriber, limit, after, unreadFirst, nows[0])
    && if pages[0].hasMore then
         IsTraversal(t, subscriber, limit, unreadFirst, NextCursor(pages[0].notifications, after), nows[1..],
                     pages[1..])
       else
         |pages| == 1
  }

  function Concat(pages: seq<Page>): seq<Uuid> {
    if pages == [] then [] else pages[0].notifications + Concat(pages[1..])
  }

  /** The cursor of the next request: the last row of the page, if it has one. */
  function NextCursor(page: seq<Uuid>, cursor: Option<Uuid>): Option<Uuid> {
    if page == [] then cursor else Some(page[|page| - 1])
  }

  lemma CutAt(rest: seq<Uuid>, k: nat)
    requires 0 < k <= |rest|
    ensures rest == rest[..k] + rest[k..]
    ensures NextCursor(rest[..k], None) == Some(rest[k - 1])
  {
  }

  lemma NextPage(t: Table, subscriber: Uuid, limit: nat, unreadFirst: bool, after: Option<Uuid>, now: int)
      returns (page: Page, behind: seq<Uuid>)
    requires limit > 0
    ensures page == GetNotifications(t, subscriber, limit, after, unreadFirst, now)
    ensures behind == Remaining(t, subscriber, unreadFirst, NextCursor(page.notifications, after))
    ensures Remaining(t, subscriber, unreadFirst, after) == page.notifications + behind
    ensures page.hasMore <==> behind != []
    ensures |page.notifications| <= limit
    ensures page.hasMore ==> |page.notifications| == limit
  {
    PageRows(t, subscriber, limit, after, unreadFirst, now);
    page := GetNotifications(t, subscriber, limit, after, unreadFirst, now);
    var rest := Remaining(t, subscriber, unreadFirst, after);
    var k := Min(limit, |rest|);
    if k > 0 {
      CutAt(rest, k);
      RemainingAfter(t, subscriber, unreadFirst, after, k - 1);
      behind := rest[k..];
    } else {
      behind := rest;
    }
  }

  /** The pages cut `rest` into pieces of `limit`, in order. */
  predicate Cuts(rest: seq<Uuid>, limit: nat, pages: seq<Page>)
    requires limit > 0
    decreases |pages|
  {
    && pages != []
    && pages[0].notifications == rest[..Min(limit, |rest|)]
    && if |rest| > limit then Cuts(rest[limit..], limit, pages[1..]) else |pages| == 1
  }

  lemma {:induction false} CutsConcat(rest: seq<Uuid>, limit: nat, pages: seq<Page>)
    requires limit > 0 && Cuts(rest, limit, pages)
    ensures Concat(pages) == rest
    ensures forall i :: 0 <= i < |pages| - 1 ==> |pages[i].notifications| == limit
    ensures |pages[|pages| - 1].notifications| <= limit
    ensures rest != [] ==> pages[|pages| - 1].notifications != []
    decreases |pages|
  {
    if |rest| > limit {
      CutsConcat(rest[limit..], limit, pages[1..]);
      assert rest == rest[..limit] + rest[limit..];
      forall i | 1 <= i < |pages| ensures pages[i] == pages[1..][i - 1] {
      }
    } else {
      assert Concat(pages[1..]) == [];
    }
  }

  lemma {:induction false} TraversalCuts(t: Table, subscriber: Uuid, limit: nat, unreadFirst: bool,
                                         after: Option<Uuid>, nows: seq<int>, pages: seq<Page>)
    requires limit > 0 && IsTraversal(t, subscriber, limit, unreadFirst, after, nows, pages)
    ensures Cuts(Remaining(t, subscriber, unreadFirst, after), limit, pages)
    decreases |pages|
  {
    var page, behind := NextPage(t, subscriber, limit, unreadFirst, after, nows[0]);
    if page.hasMore {
      TraversalCuts(t, subscriber, limit, unreadFirst, NextCursor(page.notifications, after), nows[1..], pages[1..]);
    }
  }

  /** Paging to the end always finishes, with at most one request per row and at least one. */
  lemma {:induction false} TraversalEnds(t: Table, subscriber: Uuid, limit: nat, unreadFirst: bool,
                                         after: Option<Uuid>, now: int)
      returns (nows: seq<int>, pages: seq<Page>)
    requires limit > 0
    ensures IsTraversal(t, subscriber, limit, unreadFirst, after, nows, pages)
    ensures |pages| <= 1 + |Remaining(t, subscriber, unreadFirst, after)|
    decreases |Remaining(t, subscriber, unreadFirst, after)|
  {
    var page, behind := NextPage(t, subscriber, limit, unreadFirst, after, now);
    if page.hasMore {
      var next := NextCursor(page.notifications, after);
      var laterNows, laterPages := TraversalEnds(t, subscriber, limit, unreadFirst, next, now);
      nows, pages := [now] + laterNows, [page] + laterPages;
    } else {
      nows, pages := [now], [page];
    }
  }

  /**
   Full traversal: in both orders the pages put together are the sorted rows, each once; every page but the
   last is full, and only a listing without rows has an empty page.
   */
  lemma FullTraversal(t: Table, subscriber: Uuid, limit: nat, unreadFirst: bool,
                      after: Option<Uuid>, nows: seq<int>, pages: seq<Page>)
    requires limit > 0 && IsTraversal(t, subscriber, limit, unreadFirst, after, nows, pages)
    ensures Concat(pages) == Remaining(t, subscriber, unreadFirst, after)
    ensures forall i :: 0 <= i < |pages| - 1 ==> |pages[i].notifications| == limit
    ensures |pages[|pages| - 1].notifications| <= limit
    ensures Concat(pages) != [] ==> pages[|pages| - 1].notifications != []
  {
    TraversalCuts(t, subscriber, limit, unreadFirst, after, nows, pages);
    CutsConcat(Remaining(t, subscriber, unreadFirst, after), limit, pages);
  }

  // ----- Changes between two pages -----

  /** `mark_notifications_as_read`: all unread rows of the subscriber, or those among `ids`. */
  function Marked(t: Table, subscriber: Uuid, ids: Option<set<Uuid>>): set<Uuid> {
    set id | id in t && t[id].subscriber == subscriber && !t[id].isRead && (ids.Some? ==> id in ids.value)
  }

  function MarkRead(t: Table, subscriber: Uuid, ids: Option<set<Uuid>>): (r: Table)
    ensures r.Keys == t.Keys
  {
    map id | id in t :: if id in Marked(t, subscriber, ids) then t[id].(isRead := true) else t[id]
  }

  class NotificationStore {
    var rows: Table

    constructor ()
      ensures rows == map[]
    {
      rows := map[];
    }

    method Insert(id: Uuid, row: Row)
      requires id !in rows
      modifies this
      ensures rows == old(rows)[id := row]
    {
      rows := rows[id := row];
    }

    /** Returns the rows it changed: unread ones of this subscriber, and only those asked for. */
    method MarkNotificationsAsRead(subscriber: Uuid, ids: Option<seq<Uuid>>) returns (updated: set<Uuid>)
      modifies this
      ensures rows.Keys == old(rows).Keys
      ensures forall id :: id in updated <==>
        && id in old(rows) && old(rows)[id].subscriber == subscriber && !old(rows)[id].isRead
        && (ids.Some? ==> id in ids.value)
      ensures forall id :: id in rows ==>
        rows[id] == if id in updated then old(rows)[id].(isRead := true) else old(rows)[id]
      ensures rows == MarkRead(old(rows), subscriber, if ids.Some? then Some(Elements(ids.value)) else None)
    {
      var wanted := if ids.Some? then Some(Elements(ids.value)) else None;
      updated := Marked(rows, subscriber, wanted);
      rows := MarkRead(rows, subscriber, wanted);
    }
  }

  /** What happens while a client pages: it fetches, rows arrive, rows are marked as read. */
  datatype Event = Fetch(now: int) | Insert(id: Uuid, row: Row) | Mark(owner: Uuid, ids: Option<set<Uuid>>)

  /** The table, the cursor of the next request, what was returned so far, and whether the last page said more. */
  datatype Client = Client(table: Table, cursor: Option<Uuid>, seen: seq<Uuid>, more: bool)

  ghost function Step(c: Client, subscriber: Uuid, limit: nat, unreadFirst: bool, e: Event): Client {
    match e
    case Fetch(now) =>
      var page := GetNotifications(c.table, subscriber, limit, c.cursor, unreadFirst, now);
      Client(c.table, NextCursor(page.notifications, c.cursor), c.seen + page.notifications, page.hasMore)
    case Insert(id, row) => c.(table := c.table[id := row])
    case Mark(owner, ids) => c.(table := MarkRead(c.table, owner, ids))
  }

  ghost function Play(c: Client, subscriber: Uuid, limit: nat, unreadFirst: bool, events: seq<Event>): Client
    decreases |events|
  {
    if events == [] then
      c
    else
      Play(Step(c, subscriber, limit, unreadFirst, events[0]), subscriber, limit, unreadFirst, events[1..])
  }

  /** The rows after a fetch: the page moves from the remaining rows to the seen ones. */
  lemma FetchMovesCursor(c: Client, subscriber: Uuid, limit: nat, unreadFirst: bool, now: int)
    requires limit > 0
    ensures
      var next := Step(c, subscriber, limit, unreadFirst, Fetch(now));
      && next.seen + Remaining(c.table, subscriber, unreadFirst, next.cursor)
         == c.seen + Remaining(c.table, subscriber, unreadFirst, c.cursor)
      && (!next.more ==> Remaining(c.table, subscriber, unreadFirst, next.cursor) == [])
  {
    var page, behind := NextPage(c.table, subscriber, limit, unreadFirst, c.cursor, now);
    assert c.seen + (page.notifications + behind) == (c.seen + page.notifications) + behind;
  }

  // ----- Stability, newest first -----

  /** New rows have new identifiers and a creation time after that of `start`. */
  ghost predicate NewerInsert(t: Table, start: Row, e: Event) {
    e.Insert? ==> e.id !in t && e.row.createdAt > start.createdAt
  }

  ghost predicate NewerInserts(c: Client, subscriber: Uuid, limit: nat, unreadFirst: bool, start: Row,
                               events: seq<Event>)
    decreases |events|
  {
    events != [] ==>
      && NewerInsert(c.table, start, events[0])
      && NewerInserts(Step(c, subscriber, limit, unreadFirst, events[0]), subscriber, limit, unreadFirst, start,
                      events[1..])
  }

  lemma SameRemaining(t: Table, u: Table, subscriber: Uuid, cursor: Uuid)
    requires cursor in t && cursor in u
    requires Following(t, subscriber, false, Some(cursor)) == Following(u, subscriber, false, Some(cursor))
    requires forall id :: id in t ==> id in u && u[id].createdAt == t[id].createdAt
    ensures Remaining(t, subscriber, false, Some(cursor)) == Remaining(u, subscriber, false, Some(cursor))
  {
    var s := Following(t, subscriber, false, Some(cursor));
    var xs := Remaining(t, subscriber, false, Some(cursor));
    OrderIsTotal(u, false, s);
    SortedElements(t, false, s);
    forall i, j | 0 <= i < j < |xs| ensures OrderIn(u, false)(xs[i], xs[j]) {
      assert OrderIn(t, false)(xs[i], xs[j]);
    }
    ListingIs(OrderIn(u, false), s, xs);
  }

  lemma ChangeKeepsRemaining(c: Client, subscriber: Uuid, limit: nat, start: Row, e: Event)
    requires c.cursor.Some? && c.cursor.value in c.table && c.table[c.cursor.value].createdAt <= start.createdAt
    requires NewerInsert(c.table, start, e) && !e.Fetch?
    ensures
      var next := Step(c, subscriber, limit, false, e);
      Remaining(next.table, subscriber, false, c.cursor) == Remaining(c.table, subscriber, false, c.cursor)
  {
    var next := Step(c, subscriber, limit, false, e);
    assert Following(next.table, subscriber, false, c.cursor) == Following(c.table, subscriber, false, c.cursor);
    SameRemaining(c.table, next.table, subscriber, c.cursor.value);
  }

  /**
   Stability of the default order: whatever is marked as read and whatever newer rows arrive between the pages,
   a client that pages to the end gets exactly the rows that were after its cursor at the start, once each and
   in order.
   */
  lemma {:induction false} DefaultOrderStable(
      c: Client, subscriber: Uuid, limit: nat, start: Row, events: seq<Event>)
    requires limit > 0
    requires c.cursor.Some? && c.cursor.value in c.table && c.table[c.cursor.value].createdAt <= start.createdAt
    requires NewerInserts(c, subscriber, limit, false, start, events)
    ensures
      var last := Play(c, subscriber, limit, false, events);
      && last.cursor.Some? && last.cursor.value in last.table
      && last.seen + Remaining(last.table, subscriber, false, last.cursor)
         == c.seen + Remaining(c.table, subscriber, false, c.cursor)
      && (events != [] && events[|events| - 1].Fetch? && !last.more ==>
            last.seen == c.seen + Remaining(c.table, subscriber, false, c.cursor))
    decreases |events|
  {
    if events != [] {
      var e := events[0];
      var next := Step(c, subscriber, limit, false, e);
      if e.Fetch? {
        FetchMovesCursor(c, subscriber, limit, false, e.now);
        FetchedCursor(c, subscriber, limit, false, e.now);
      } else {
        ChangeKeepsRemaining(c, subscriber, limit, start, e);
      }
      DefaultOrderStable(next, subscriber, limit, start, events[1..]);
      if |events| > 1 {
        assert events[|events| - 1] == events[1..][|events[1..]| - 1];
      }
    }
  }

  lemma FetchedCursor(c: Client, subscriber: Uuid, limit: nat, unreadFirst: bool, now: int)
    requires c.cursor.Some? && c.cursor.value in c.table
    ensures
      var next := Step(c, subscriber, limit, unreadFirst, Fetch(now));
      && next.cursor.Some? && next.cursor.value in c.table
      && (next.cursor == c.cursor || OrderBefore(c.table, unreadFirst, c.cursor.value, next.cursor.value))
  {
    var rest := Remaining(c.table, subscriber, unreadFirst, c.cursor);
    PageExact(c.table, subscriber, limit, c.cursor, unreadFirst, now);
    var k := Min(limit, |rest|);
    if k > 0 {
      SortedElements(c.table, unreadFirst, Following(c.table, subscriber, unreadFirst, c.cursor));
      assert rest[k - 1] in Elements(rest);
    }
  }

  // ----- Stability, unread first -----

  /** The row that is older, or of the same age with the larger identifier. */
  predicate Older(t: Table, cursor: Uuid, id: Uuid)
    requires cursor in t && id in t
  {
    OrderBefore(t, false, cursor, id)
  }

  /**
   A mark hides a row when it marks the cursor row, which moves back behind the unread rows, unless the row is
   older than the cursor row and is read or marked too.
   */
  predicate Hides(t: Table, cursor: Option<Uuid>, owner: Uuid, ids: Option<set<Uuid>>, id: Uuid) {
    && cursor.Some? && cursor.value in Marked(t, owner, ids) && id in t
    && !(Older(t, cursor.value, id) && (t[id].isRead || id in Marked(t, owner, ids)))
  }

  lemma MarkKeepsUnlessHidden(t: Table, subscriber: Uuid, cursor: Option<Uuid>, owner: Uuid, ids: Option<set<Uuid>>,
                              id: Uuid)
    requires id in Following(t, subscriber, true, cursor)
    ensures id in Following(MarkRead(t, owner, ids), subscriber, true, cursor) <==> !Hides(t, cursor, owner, ids, id)
  {
  }

  /** Rows arrive with new identifiers, and a mark hides no wanted row that is still to come. */
  ghost predicate Spares(c: Client, subscriber: Uuid, wanted: set<Uuid>, e: Event) {
    match e
    case Fetch(_) => true
    case Insert(id, _) => id !in c.table
    case Mark(owner, ids) =>
      forall id :: id in wanted && id !in c.seen && id in Following(c.table, subscriber, true, c.cursor) ==>
        !Hides(c.table, c.cursor, owner, ids, id)
  }

  ghost predicate SparesWanted(c: Client, subscriber: Uuid, limit: nat, wanted: set<Uuid>, events: seq<Event>)
    decreases |events|
  {
    events != [] ==>
      && Spares(c, subscriber, wanted, events[0])
      && SparesWanted(Step(c, subscriber, limit, true, events[0]), subscriber, limit, wanted, events[1..])
  }

  /** Every wanted row was returned or is still to come. */
  ghost predicate OnTheWay(c: Client, subscriber: Uuid, wanted: set<Uuid>) {
    forall id :: id in wanted ==> id in c.seen || id in Following(c.table, subscriber, true, c.cursor)
  }

  lemma StepKeepsOnTheWay(c: Client, subscriber: Uuid, limit: nat, wanted: set<Uuid>, e: Event)
    requires limit > 0 && OnTheWay(c, subscriber, wanted) && Spares(c, subscriber, wanted, e)
    ensures
      var next := Step(c, subscriber, limit, true, e);
      OnTheWay(next, subscriber, wanted) && (e.Fetch? && !next.more ==> forall id :: id in wanted ==> id in next.seen)
  {
    var next := Step(c, subscriber, limit, true, e);
    match e
    case Insert(_, _) =>
    case Mark(owner, ids) =>
      forall id | id in wanted && id !in c.seen ensures id in Following(next.table, subscriber, true, c.cursor) {
        MarkKeepsUnlessHidden(c.table, subscriber, c.cursor, owner, ids, id);
      }
    case Fetch(now) =>
      FetchMovesCursor(c, subscriber, limit, true, now);
      var before := Remaining(c.table, subscriber, true, c.cursor);
      var behind := Remaining(c.table, subscriber, true, next.cursor);
      SortedElements(c.table, true, Following(c.table, subscriber, true, c.cursor));
      SortedElements(c.table, true, Following(c.table, subscriber, true, next.cursor));
      forall id | id in wanted ensures id in next.seen || id in behind {
        assert id in c.seen || id in before;
        assert id in c.seen + before;
      }
  }

  /**
   No skipping with unread first: as long as no mark hides a wanted row, every row that was after the cursor is
   returned by the time the client reaches the end, although marked rows move back.
   */
  lemma {:induction false} UnreadFirstNeverSkips(
      c: Client, subscriber: Uuid, limit: nat, events: seq<Event>, wanted: set<Uuid>)
    requires limit > 0 && OnTheWay(c, subscriber, wanted)
    requires SparesWanted(c, subscriber, limit, wanted, events)
    ensures
      var last := Play(c, subscriber, limit, true, events);
      && OnTheWay(last, subscriber, wanted)
      && (events != [] && events[|events| - 1].Fetch? && !last.more ==> forall id :: id in wanted ==> id in last.seen)
    decreases |events|
  {
    if events != [] {
      var next := Step(c, subscriber, limit, true, events[0]);
      StepKeepsOnTheWay(c, subscriber, limit, wanted, events[0]);
      UnreadFirstNeverSkips(next, subscriber, limit, events[1..], wanted);
      if |events| > 1 {
        assert events[|events| - 1] == events[1..][|events[1..]| - 1];
      }
    }
  }

  predicate OnlyFetches(events: seq<Event>) {
    forall i :: 0 <= i < |events| ==> events[i].Fetch?
  }

  /** Fetching to the end returns exactly the remaining rows. */
  lemma {:induction false} FetchesReturnRemaining(
      c: Client, subscriber: Uuid, limit: nat, unreadFirst: bool, events: seq<Event>)
    requires limit > 0 && OnlyFetches(events)
    ensures
      var last := Play(c, subscriber, limit, unreadFirst, events);
      && last.seen + Remaining(last.table, subscriber, unreadFirst, last.cursor)
         == c.seen + Remaining(c.table, subscriber, unreadFirst, c.cursor)
      && (events != [] && !last.more ==> last.seen == c.seen + Remaining(c.table, subscriber, unreadFirst, c.cursor))
    decreases |events|
  {
    if events != [] {
      var next := Step(c, subscriber, limit, unreadFirst, events[0]);
      FetchMovesCursor(c, subscriber, limit, unreadFirst, events[0].now);
      FetchesReturnRemaining(next, subscriber, limit, unreadFirst, events[1..]);
      if events[1..] == [] {
        assert Play(next, subscriber, limit, unreadFirst, events[1..]) == next;
      }
    }
  }

  /**
   What exactly a mark costs a client that then pages to the end: of the rows that were after its cursor it is
   returned all but those that the mark hides.
   */
  lemma MarkedCursorSkipsExactly(c: Client, subscriber: Uuid, limit: nat, owner: Uuid, ids: Option<set<Uuid>>,
                                 fetches: seq<Event>)
    requires limit > 0 && OnlyFetches(fetches) && fetches != []
    requires !Play(c, subscriber, limit, true, [Mark(owner, ids)] + fetches).more
    ensures
      var last := Play(c, subscriber, limit, true, [Mark(owner, ids)] + fetches);
      && c.seen <= last.seen
      && forall id :: id in Following(c.table, subscriber, true, c.cursor) ==>
           (id in last.seen[|c.seen|..] <==> !Hides(c.table, c.cursor, owner, ids, id))
  {
    var marked := Step(c, subscriber, limit, true, Mark(owner, ids));
    var rest := Remaining(marked.table, subscriber, true, c.cursor);
    assert ([Mark(owner, ids)] + fetches)[1..] == fetches;
    FetchesReturnRemaining(marked, subscriber, limit, true, fetches);
    assert (c.seen + rest)[|c.seen|..] == rest;
    SortedElements(marked.table, true, Following(marked.table, subscriber, true, c.cursor));
    forall id | id in Following(c.table, subscriber, true, c.cursor)
      ensures id in rest <==> !Hides(c.table, c.cursor, owner, ids, id)
    {
      MarkKeepsUnlessHidden(c.table, subscriber, c.cursor, owner, ids, id);
      assert id in rest <==> id in Elements(rest);
    }
  }

  /** Two unread rows: marking the first while it is the cursor makes the next page skip the second. */
  lemma MarkedCursorCanSkip()
    ensures
      var t: Table := map[1 := Row(7, 5, 200, false), 2 := Row(8, 5, 100, false)];
      var c := Client(t, Some(1), [1], true);
      var last := Play(c, 5, 1, true, [Mark(5, Some({1})), Fetch(300)]);
      && 2 in Following(t, 5, true, Some(1))
      && !last.more && 2 !in last.seen
  {
    var t: Table := map[1 := Row(7, 5, 200, false), 2 := Row(8, 5, 100, false)];
    var c := Client(t, Some(1), [1], true);
    var marked := Step(c, 5, 1, true, Mark(5, Some({1})));
    assert marked.table == map[1 := Row(7, 5, 200, true), 2 := Row(8, 5, 100, false)];
    assert Following(marked.table, 5, true, Some(1)) == {};
    PageExact(marked.table, 5, 1, Some(1), true, 300);
    var fetched := Step(marked, 5, 1, true, Fetch(300));
    assert fetched.seen == [1];
    assert Play(fetched, 5, 1, true, []) == fetched;
    assert [Mark(5, Some({1})), Fetch(300)][1..] == [Fetch(300)];
    assert [Fetch(300)][1..] == [];
  }
}
