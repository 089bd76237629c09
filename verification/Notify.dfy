/**
 `POST /v1/notify` (src/services/public_http_server/handlers/notify_v1.rs): what the response says about each
 requested account. The loops of the handler work on plain values; the tables and the rate limits are in
 NotifyHandler.
 */
module Notify {
  import opened Wrappers
  import opened Ordering
  import opened AccountId
  import opened TokenBucket
  import Queue

  /** What the handler needs to know of a subscriber. */
  datatype Row = Row(project: Uuid, account: string, scope: set<Uuid>)

  datatype NotifyBodyNotification =
    NotifyBodyNotification(notificationId: Option<string>, notification: Queue.Content, accounts: seq<string>)

  datatype SendFailure = SendFailure(account: string, reason: string)

  datatype ResponseBody = ResponseBody(sent: set<string>, failed: set<SendFailure>, notFound: set<string>)

  /** A subscriber that was found, with the account it was requested by. */
  datatype Target = Target(id: Uuid, account: string)

  const NOT_SUBSCRIBED := "Client is not subscribed to this notification type"
  const LIMIT_EXCEEDED := "Rate limit exceeded"

  // ----- Addresses -----

  /** `get_address_from_account`, which panics on strings that are no accounts. */
  function Address(account: string): string
    requires GetAddressFromAccount(account).Some?
  {
    GetAddressFromAccount(account).value
  }

  ghost predicate Sliceable(accounts: seq<string>) {
    forall i :: 0 <= i < |accounts| ==> GetAddressFromAccount(accounts[i]).Some?
  }

  /** The chain-agnostic lookup table: the last account with each address. */
  ghost predicate IsLookupTable(accounts: seq<string>, table: map<string, string>)
    requires Sliceable(accounts)
  {
    && (forall i :: 0 <= i < |accounts| ==> Address(accounts[i]) in table)
    && (forall a :: a in table ==> exists i :: LastWith(accounts, i, a) && table[a] == accounts[i])
  }

  ghost predicate LastWith(accounts: seq<string>, i: int, a: string)
    requires Sliceable(accounts)
  {
    0 <= i < |accounts| && Address(accounts[i]) == a && forall j :: i < j < |accounts| ==> Address(accounts[j]) != a
  }

  lemma LaterEntry(accounts: seq<string>, table: map<string, string>, account: string)
    requires Sliceable(accounts) && GetAddressFromAccount(account).Some? && IsLookupTable(accounts, table)
    ensures Sliceable(accounts + [account])
    ensures IsLookupTable(accounts + [account], table[Address(account) := account])
  {
    var longer, a := accounts + [account], Address(account);
    var after := table[a := account];
    forall b | b in after ensures exists j :: LastWith(longer, j, b) && after[b] == longer[j] {
      if b == a {
        assert LastWith(longer, |accounts|, b);
      } else {
        var j :| LastWith(accounts, j, b) && table[b] == accounts[j];
        assert LastWith(longer, j, b);
      }
    }
  }

  method LookupTable(accounts: seq<string>) returns (table: map<string, string>)
    requires Sliceable(accounts)
    ensures IsLookupTable(accounts, table)
  {
    table := map[];
    for i := 0 to |accounts|
      invariant IsLookupTable(accounts[..i], table)
    {
      assert accounts[..i + 1] == accounts[..i] + [accounts[i]];
      LaterEntry(accounts[..i], table, accounts[i]);
      table := table[Address(accounts[i]) := accounts[i]];
    }
    assert accounts[..|accounts|] == accounts;
  }

  // ----- The loops over the found subscribers -----

  ghost function AccountsOf(targets: seq<Target>): set<string> {
    set t | t in targets :: t.account
  }

  ghost function Failures(targets: seq<Target>, reason: string): set<SendFailure> {
    set t | t in targets :: SendFailure(t.account, reason)
  }

  /** The members for which `good` holds, in order, and the others. */
  ghost predicate IsSplit(all: seq<Target>, kept: seq<Target>, rest: seq<Target>, good: Target -> bool) {
    && (forall t :: t in kept <==> t in all && good(t))
    && (forall t :: t in rest <==> t in all && !good(t))
    && (Distinct(all) ==> Distinct(kept))
  }

  lemma AccountsSnoc(targets: seq<Target>, t: Target)
    ensures AccountsOf(targets + [t]) == AccountsOf(targets) + {t.account}
  {
    assert t in targets + [t];
  }

  lemma FailuresSnoc(targets: seq<Target>, t: Target, reason: string)
    ensures Failures(targets + [t], reason) == Failures(targets, reason) + {SendFailure(t.account, reason)}
  {
    assert t in targets + [t];
  }

  lemma SplitSnoc(all: seq<Target>, kept: seq<Target>, rest: seq<Target>, good: Target -> bool, t: Target)
    requires IsSplit(all, kept, rest, good)
    ensures good(t) ==> IsSplit(all + [t], kept + [t], rest, good)
    ensures !good(t) ==> IsSplit(all + [t], kept, rest + [t], good)
  {
    assert all == (all + [t])[..|all|];
    if Distinct(all + [t]) {
      forall i | 0 <= i < |all| ensures all[i] != t {
        assert (all + [t])[i] != (all + [t])[|all|];
      }
    }
  }

  predicate Subscribed(rows: map<Uuid, Row>, kind: Uuid, t: Target) {
    t.id in rows && kind in rows[t.id].scope
  }

  ghost function SubscribedTo(rows: map<Uuid, Row>, kind: Uuid): Target -> bool {
    (t: Target) => Subscribed(rows, kind, t)
  }

  ghost function AdmittedBy(verdicts: map<string, Verdict>, key: Uuid -> string): Target -> bool {
    (t: Target) => key(t.id) in verdicts && verdicts[key(t.id)].Admitted()
  }

  /** Every found account leaves `notFound`; those not subscribed to this type have failed. */
  method CheckScopes(found: seq<Target>, rows: map<Uuid, Row>, kind: Uuid, response: ResponseBody)
      returns (response': ResponseBody, valid: seq<Target>, ghost failed: seq<Target>)
    ensures IsSplit(found, valid, failed, SubscribedTo(rows, kind))
    ensures response' == ResponseBody(response.sent, response.failed + Failures(failed, NOT_SUBSCRIBED),
                                      response.notFound - AccountsOf(found))
  {
    response', valid, failed := response, [], [];
    for i := 0 to |found|
      invariant ScopesChecked(found[..i], rows, kind, valid, failed, response, response')
    {
      var t := found[i];
      assert found[..i + 1] == found[..i] + [t];
      ScopesStep(found[..i], rows, kind, valid, failed, response, response', t);
      response' := response'.(notFound := response'.notFound - {t.account});
      if Subscribed(rows, kind, t) {
        valid := valid + [t];
      } else {
        failed := failed + [t];
        response' := response'.(failed := response'.failed + {SendFailure(t.account, NOT_SUBSCRIBED)});
      }
    }
    assert found[..|found|] == found;
  }

  /** The state of the scope check: `found` are done. */
  ghost predicate ScopesChecked(found: seq<Target>, rows: map<Uuid, Row>, kind: Uuid, valid: seq<Target>,
                                failed: seq<Target>, response: ResponseBody, response': ResponseBody)
  {
    && IsSplit(found, valid, failed, SubscribedTo(rows, kind))
    && response' == ResponseBody(response.sent, response.failed + Failures(failed, NOT_SUBSCRIBED),
                                 response.notFound - AccountsOf(found))
  }

  lemma ScopesStep(found: seq<Target>, rows: map<Uuid, Row>, kind: Uuid, valid: seq<Target>, failed: seq<Target>,
                   response: ResponseBody, earlier: ResponseBody, t: Target)
    requires ScopesChecked(found, rows, kind, valid, failed, response, earlier)
    ensures
      var left := earlier.(notFound := earlier.notFound - {t.account});
      if Subscribed(rows, kind, t) then
        ScopesChecked(found + [t], rows, kind, valid + [t], failed, response, left)
      else
        ScopesChecked(found + [t], rows, kind, valid, failed + [t], response,
                      left.(failed := left.failed + {SendFailure(t.account, NOT_SUBSCRIBED)}))
  {
    SplitSnoc(found, valid, failed, SubscribedTo(rows, kind), t);
    AccountsSnoc(found, t);
    FailuresSnoc(failed, t, NOT_SUBSCRIBED);
  }

  /** The rate limiter answered for every key, so the lookup of a verdict never panics. */
  method FilterLimited(valid: seq<Target>, verdicts: map<string, Verdict>, key: Uuid -> string,
                       response: ResponseBody)
      returns (response': ResponseBody, kept: seq<Target>, ghost failed: seq<Target>)
    requires forall i :: 0 <= i < |valid| ==> key(valid[i].id) in verdicts
    ensures IsSplit(valid, kept, failed, AdmittedBy(verdicts, key))
    ensures response' == response.(failed := response.failed + Failures(failed, LIMIT_EXCEEDED))
  {
    response', kept, failed := response, [], [];
    for i := 0 to |valid|
      invariant IsSplit(valid[..i], kept, failed, AdmittedBy(verdicts, key))
      invariant response' == response.(failed := response.failed + Failures(failed, LIMIT_EXCEEDED))
    {
      var t := valid[i];
      assert valid[..i + 1] == valid[..i] + [t];
      SplitSnoc(valid[..i], kept, failed, AdmittedBy(verdicts, key), t);
      if verdicts[key(t.id)].remaining < 0 {
        FailuresSnoc(failed, t, LIMIT_EXCEEDED);
        failed := failed + [t];
        response' := response'.(failed := response'.failed + {SendFailure(t.account, LIMIT_EXCEEDED)});
      } else {
        kept := kept + [t];
      }
    }
    assert valid[..|valid|] == valid;
  }

  method MarkSent(valid: seq<Target>, response: ResponseBody) returns (response': ResponseBody, ids: seq<Uuid>)
    ensures |ids| == |valid| && forall i :: 0 <= i < |valid| ==> ids[i] == valid[i].id
    ensures response' == response.(sent := response.sent + AccountsOf(valid))
  {
    response', ids := response, [];
    for i := 0 to |valid|
      invariant |ids| == i && forall j :: 0 <= j < i ==> ids[j] == valid[j].id
      invariant response' == response.(sent := response.sent + AccountsOf(valid[..i]))
    {
      assert valid[..i + 1] == valid[..i] + [valid[i]];
      AccountsSnoc(valid[..i], valid[i]);
      ids := ids + [valid[i].id];
      response' := response'.(sent := response'.sent + {valid[i].account});
    }
    assert valid[..|valid|] == valid;
  }

  // ----- The response -----

  ghost function Requested(accounts: seq<string>): set<string> {
    set a | a in accounts
  }

  ghost function FailedAccounts(response: ResponseBody): set<string> {
    set f | f in response.failed :: f.account
  }

  /** What one notification does to the response, for found subscribers split into sent and failed ones. */
  ghost predicate Responds(response: ResponseBody, accounts: seq<string>, found: seq<Target>, sent: seq<Target>,
                           unsubscribed: seq<Target>, limited: seq<Target>, response': ResponseBody)
  {
    && (forall t :: t in found <==> t in sent || t in unsubscribed || t in limited)
    && response' == ResponseBody(
         response.sent + AccountsOf(sent),
         response.failed + Failures(unsubscribed, NOT_SUBSCRIBED) + Failures(limited, LIMIT_EXCEEDED),
         response.notFound + Requested(accounts) - AccountsOf(found))
  }

  ghost predicate Covered(response: ResponseBody, account: string) {
    account in response.sent || account in FailedAccounts(response) || account in response.notFound
  }

  lemma FailureAccounts(targets: seq<Target>, reason: string)
    ensures (set f | f in Failures(targets, reason) :: f.account) == AccountsOf(targets)
  {
    forall t | t in targets ensures t.account in (set f | f in Failures(targets, reason) :: f.account) {
      assert SendFailure(t.account, reason) in Failures(targets, reason);
    }
  }

  lemma FailedAfter(response: ResponseBody, accounts: seq<string>, found: seq<Target>, sent: seq<Target>,
                    unsubscribed: seq<Target>, limited: seq<Target>, response': ResponseBody)
    requires Responds(response, accounts, found, sent, unsubscribed, limited, response')
    ensures FailedAccounts(response')
         == FailedAccounts(response) + AccountsOf(unsubscribed) + AccountsOf(limited)
  {
    FailureAccounts(unsubscribed, NOT_SUBSCRIBED);
    FailureAccounts(limited, LIMIT_EXCEEDED);
    var u, l := Failures(unsubscribed, NOT_SUBSCRIBED), Failures(limited, LIMIT_EXCEEDED);
    assert FailedAccounts(response') == FailedAccounts(response) + (set f | f in u :: f.account)
                                        + (set f | f in l :: f.account);
  }

  /** Whatever came before, nothing requested is lost: an account that was somewhere in the response still is. */
  lemma StaysCovered(response: ResponseBody, accounts: seq<string>, found: seq<Target>, sent: seq<Target>,
                     unsubscribed: seq<Target>, limited: seq<Target>, response': ResponseBody, account: string)
    requires Responds(response, accounts, found, sent, unsubscribed, limited, response')
    requires Covered(response, account) || account in accounts
    ensures Covered(response', account)
  {
    FailedAfter(response, accounts, found, sent, unsubscribed, limited, response');
  }

  ghost predicate OneTargetPerAccount(targets: seq<Target>) {
    forall t, u :: t in targets && u in targets && t.account == u.account ==> t == u
  }

  /**
   For one notification the response partitions the requested accounts: each is sent, failed or not found, and
   never two of these.
   */
  lemma ResponsePartition(accounts: seq<string>, found: seq<Target>, sent: seq<Target>, unsubscribed: seq<Target>,
                          limited: seq<Target>, response: ResponseBody)
    requires Responds(ResponseBody({}, {}, {}), accounts, found, sent, unsubscribed, limited, response)
    requires OneTargetPerAccount(found) && AccountsOf(found) <= Requested(accounts)
    requires forall t :: t in sent ==> t !in unsubscribed && t !in limited
    ensures response.sent !! FailedAccounts(response) !! response.notFound
    ensures response.sent + FailedAccounts(response) + response.notFound == Requested(accounts)
  {
    FailedAfter(ResponseBody({}, {}, {}), accounts, found, sent, unsubscribed, limited, response);
    assert AccountsOf(found) == AccountsOf(sent) + AccountsOf(unsubscribed) + AccountsOf(limited);
    forall a | a in AccountsOf(sent) ensures a !in AccountsOf(unsubscribed) && a !in AccountsOf(limited) {
      var t :| t in sent && t.account == a;
    }
  }

  function ResponseSize(response: ResponseBody): nat {
    |response.sent| + |response.notFound| + |response.failed|
  }

  lemma {:induction false} RequestedSize(accounts: seq<string>)
    ensures |Requested(accounts)| <= |accounts|
    ensures |Requested(accounts)| == |accounts| <==> Distinct(accounts)
  {
    if accounts != [] {
      var rest := accounts[1..];
      RequestedSize(rest);
      assert accounts == [accounts[0]] + rest;
      assert Requested(accounts) == Requested(rest) + {accounts[0]};
      if Distinct(rest) && accounts[0] !in rest {
        assert forall i :: 1 <= i < |accounts| ==> accounts[i] == rest[i - 1];
      }
      if Distinct(accounts) {
        assert forall i :: 0 <= i < |rest| ==> rest[i] == accounts[i + 1];
      }
    }
  }

  lemma {:induction false} OneFailurePerAccount(failed: set<SendFailure>)
    requires forall f, g :: f in failed && g in failed && f.account == g.account ==> f == g
    ensures |set f | f in failed :: f.account| == |failed|
    decreases |failed|
  {
    if failed != {} {
      var f :| f in failed;
      OneFailurePerAccount(failed - {f});
      assert (set g | g in failed :: g.account) == (set g | g in failed - {f} :: g.account) + {f.account};
    }
  }

  lemma FailuresDiffer(found: seq<Target>, unsubscribed: seq<Target>, limited: seq<Target>)
    requires OneTargetPerAccount(found)
    requires forall t :: t in unsubscribed || t in limited ==> t in found
    requires forall t :: t in unsubscribed ==> t !in limited
    ensures
      var failed := Failures(unsubscribed, NOT_SUBSCRIBED) + Failures(limited, LIMIT_EXCEEDED);
      forall f, g :: f in failed && g in failed && f.account == g.account ==> f == g
  {
  }

  /**
   The handler logs an error when the sizes of the three sets do not add up to the number of requested accounts. For
   one notification it does so exactly when an account was requested twice.
   */
  lemma CountMatchesExactly(accounts: seq<string>, found: seq<Target>, sent: seq<Target>, unsubscribed: seq<Target>,
                            limited: seq<Target>, response: ResponseBody)
    requires Responds(ResponseBody({}, {}, {}), accounts, found, sent, unsubscribed, limited, response)
    requires OneTargetPerAccount(found) && AccountsOf(found) <= Requested(accounts)
    requires forall t :: t in sent ==> t !in unsubscribed && t !in limited
    requires forall t :: t in unsubscribed ==> t !in limited
    ensures |accounts| == ResponseSize(response) <==> Distinct(accounts)
  {
    ResponsePartition(accounts, found, sent, unsubscribed, limited, response);
    FailuresDiffer(found, unsubscribed, limited);
    OneFailurePerAccount(response.failed);
    RequestedSize(accounts);
    ThreeParts(Requested(accounts), response.sent, FailedAccounts(response), response.notFound);
  }

  lemma ThreeParts(all: set<string>, a: set<string>, b: set<string>, c: set<string>)
    requires a !! b !! c && a + b + c == all
    ensures |all| == |a| + |b| + |c|
  {
    assert |a + b| == |a| + |b|;
  }

  // ----- Finding the subscribers -----

  function LowerAddresses(accounts: seq<string>): set<string>
    requires Sliceable(accounts)
  {
    set i | 0 <= i < |accounts| :: Lower(Address(accounts[i]))
  }

  /** The `WHERE` of `get_subscribers_for_project_in`. */
  function Matching(rows: map<Uuid, Row>, project: Uuid, accounts: seq<string>): set<Uuid>
    requires Sliceable(accounts)
  {
    set id | id in rows && rows[id].project == project && GetAddressLower(rows[id].account) in LowerAddresses(accounts)
  }

  ghost predicate AllAccounts(h: Digest, accounts: seq<string>) {
    forall i :: 0 <= i < |accounts| ==> IsAccount(h, accounts[i])
  }

  ghost predicate RowsGood(h: Digest, rows: map<Uuid, Row>) {
    && (forall id :: id in rows ==> IsAccount(h, rows[id].account))
    && (forall i, j :: i in rows && j in rows && i != j && rows[i].project == rows[j].project ==>
          GetAddressLower(rows[i].account) != GetAddressLower(rows[j].account))
  }

  lemma AccountsSliceable(h: Digest, accounts: seq<string>)
    requires AllAccounts(h, accounts)
    ensures Sliceable(accounts)
  {
    forall i | 0 <= i < |accounts| ensures GetAddressFromAccount(accounts[i]).Some? {
      AddressOfAccount(h, accounts[i]);
    }
  }

  /** SQL found the row by its lower-case address; Rust looks it up by the exact one, and it is there. */
  lemma MatchIsInTable(h: Digest, rows: map<Uuid, Row>, project: Uuid, accounts: seq<string>,
                       table: map<string, string>, id: Uuid)
    requires AllAccounts(h, accounts) && Sliceable(accounts) && IsLookupTable(accounts, table)
    requires RowsGood(h, rows) && id in Matching(rows, project, accounts)
    ensures GetAddressFromAccount(rows[id].account).Some?
    ensures Address(rows[id].account) in table
    ensures table[Address(rows[id].account)] in accounts
    ensures GetAddressFromAccount(table[Address(rows[id].account)]) == GetAddressFromAccount(rows[id].account)
  {
    var i :| 0 <= i < |accounts| && Lower(Address(accounts[i])) == GetAddressLower(rows[id].account);
    AddressAgreement(h, accounts[i], rows[id].account);
    var a := Address(rows[id].account);
    assert Address(accounts[i]) == a;
    var j :| LastWith(accounts, j, a) && table[a] == accounts[j];
  }

  predicate DistinctIds(targets: seq<Target>) {
    forall i, j :: 0 <= i < j < |targets| ==> targets[i].id != targets[j].id
  }

  /** The found targets are the matching rows, each once, with a requested account of the same address. */
  ghost predicate FoundFor(rows: map<Uuid, Row>, matching: set<Uuid>, accounts: seq<string>, found: seq<Target>) {
    && DistinctIds(found)
    && (forall id :: id in matching ==> exists t :: t in found && t.id == id)
    && (forall t :: t in found ==> IsMatch(rows, matching, accounts, t))
  }

  ghost predicate IsMatch(rows: map<Uuid, Row>, matching: set<Uuid>, accounts: seq<string>, t: Target) {
    && t.id in matching && t.id in rows && t.account in accounts
    && GetAddressFromAccount(t.account) == GetAddressFromAccount(rows[t.id].account)
  }

  lemma SameAccountSameRow(h: Digest, rows: map<Uuid, Row>, project: Uuid, accounts: seq<string>, t: Target, u: Target)
    requires Sliceable(accounts) && RowsGood(h, rows)
    requires IsMatch(rows, Matching(rows, project, accounts), accounts, t)
    requires IsMatch(rows, Matching(rows, project, accounts), accounts, u)
    requires t.account == u.account
    ensures t.id == u.id
  {
    AddressAgreement(h, rows[t.id].account, rows[u.id].account);
  }

  lemma SameIdSameTarget(targets: seq<Target>, t: Target, u: Target)
    requires DistinctIds(targets) && t in targets && u in targets && t.id == u.id
    ensures t == u
  {
    var i :| 0 <= i < |targets| && targets[i] == t;
    var j :| 0 <= j < |targets| && targets[j] == u;
  }

  /** Rows of one project have different addresses, so no two of them answer for one account. */
  lemma FoundOncePerAccount(h: Digest, rows: map<Uuid, Row>, project: Uuid, accounts: seq<string>, found: seq<Target>)
    requires Sliceable(accounts) && RowsGood(h, rows)
    requires FoundFor(rows, Matching(rows, project, accounts), accounts, found)
    ensures OneTargetPerAccount(found) && AccountsOf(found) <= Requested(accounts)
  {
    forall t, u | t in found && u in found && t.account == u.account ensures t == u {
      SameAccountSameRow(h, rows, project, accounts, t, u);
      SameIdSameTarget(found, t, u);
    }
  }

  lemma KeptDistinctIds(all: seq<Target>, kept: seq<Target>)
    requires DistinctIds(all) && Distinct(kept) && forall t :: t in kept ==> t in all
    ensures DistinctIds(kept)
  {
    forall i, j | 0 <= i < j < |kept| ensures kept[i].id != kept[j].id {
      if kept[i].id == kept[j].id {
        assert kept[i] in kept && kept[j] in kept;
        SameIdSameTarget(all, kept[i], kept[j]);
      }
    }
  }
}
