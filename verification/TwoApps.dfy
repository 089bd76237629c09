/**
 What URIs with quotes can do to an authorization (src/auth.rs:876-936): one signed statement that one recap turns
 into an authorization for one app, and another recap into an authorization for another.
 */
module TwoApps {
  import opened Wrappers
  import opened Ordering
  import opened Recap
  import opened Ambiguity
  import opened Authorization

  /** A recap that grants one ability, with one empty object, on each of its URIs; and the same as it is serialized. */
  function OneEach(abilities: map<string, Ability>): Details {
    map uri | uri in abilities :: map[abilities[uri] := [EMPTY_OBJECT]]
  }

  function OneEachRaw(abilities: map<string, Ability>): RawDetails {
    map uri | uri in abilities :: map[abilities[uri].Format() := [EMPTY_OBJECT]]
  }

  lemma OneEachReads(abilities: map<string, Ability>)
    requires forall uri :: uri in abilities ==> abilities[uri].Valid()
    ensures Deserialize(OneEachRaw(abilities)) == Some(OneEach(abilities))
  {
    var raw, att := OneEachRaw(abilities), OneEach(abilities);
    forall uri | uri in raw && uri in att ensures FormatOf(raw[uri], att[uri]) {
      assert abilities[uri] in att[uri];
    }
    SerializationReads(raw, att);
  }

  function ManageText(app: AuthorizedApp): string {
    " (2) 'manage': '" + AppName(app) + SUFFIX + "' for '"
  }

  const SMALL := Ability("n", "x")
  const FIRST := "a:"
  const THIRD := "z:"

  /** The end of one clause, a clause that names `app`, and the beginning of a third clause. */
  function EarlySplice(app: AuthorizedApp): string {
    "'." + ManageText(app) + NOTIFY_URI + "'." + Opening("3")
  }

  /** The end of a clause, and the beginning of one that names `app`. */
  function LateSplice(app: AuthorizedApp): string {
    "'." + ManageText(app)
  }

  /** This recap grants `p`, and the URI behind that spells a clause for `q`. */
  function EarlyRecap(p: AuthorizedApp, q: AuthorizedApp): map<string, Ability> {
    map[FIRST := SMALL, NOTIFY_URI := AbilityOf(p), THIRD + LateSplice(q) + NOTIFY_URI := SMALL]
  }

  /** This one grants `q`, and the URI before that spells a clause for `p`. */
  function LateRecap(p: AuthorizedApp, q: AuthorizedApp): map<string, Ability> {
    map[FIRST + EarlySplice(p) + THIRD := SMALL, NOTIFY_URI := AbilityOf(q)]
  }

  function ClauseFor(app: AuthorizedApp): Clause {
    Clause(NOTIFY_URI, MANAGE, [AppName(app) + SUFFIX])
  }

  function EarlyClauses(p: AuthorizedApp, q: AuthorizedApp): seq<Clause> {
    [Clause(FIRST, "n", ["x"]), ClauseFor(p), Clause(THIRD + LateSplice(q) + NOTIFY_URI, "n", ["x"])]
  }

  function LateClauses(p: AuthorizedApp, q: AuthorizedApp): seq<Clause> {
    [Clause(FIRST + EarlySplice(p) + THIRD, "n", ["x"]), ClauseFor(q)]
  }

  lemma ManageClause(app: AuthorizedApp)
    ensures ClauseText(2, ClauseFor(app)) == ManageText(app) + NOTIFY_URI + "'."
  {
    var name := AppName(app) + SUFFIX;
    assert NamesText([name]) == " '" + name + "'";
    ManageSpelled(name, NOTIFY_URI);
  }

  lemma ManageSpelled(name: string, uri: string)
    ensures " (" + Decimal(2) + ") '" + MANAGE + "':" + (" '" + name + "'") + " for '" + uri + "'."
         == " (2) 'manage': '" + name + "' for '" + uri + "'."
  {
    assert " (" + Decimal(2) + ") '" + MANAGE + "':" + " '" == " (2) 'manage': '";
    assert "'" + " for '" == "' for '";
    NameBetween(" (" + Decimal(2) + ") '" + MANAGE + "':", " '", name, "'", " for '", uri + "'.");
    assert (" (2) 'manage': '" + name + "' for '") + (uri + "'.") == " (2) 'manage': '" + name + "' for '" + uri + "'.";
  }

  lemma NameBetween(a: string, b: string, name: string, c: string, d: string, e: string)
    ensures a + (b + name + c) + d + e == a + b + name + (c + d) + e
  {
  }

  // ----- The recaps have these clauses -----

  lemma GrantIsNamed(abilities: map<string, Ability>, clauses: seq<Clause>, g: Grant)
    requires forall i :: 0 <= i < |clauses| ==> NamesGrant(abilities, clauses[i])
    requires forall uri :: uri in abilities ==> exists i :: 0 <= i < |clauses| && clauses[i].uri == uri
    requires g in Grants(OneEach(abilities))
    ensures g in Named(clauses)
  {
    var i :| 0 <= i < |clauses| && clauses[i].uri == g.0;
    assert NamesGrant(abilities, clauses[i]) && clauses[i] in clauses;
    assert g.1.name in clauses[i].names;
  }

  lemma NamedIsGrant(abilities: map<string, Ability>, clauses: seq<Clause>, g: Grant)
    requires forall i :: 0 <= i < |clauses| ==> |clauses[i].names| == 1 && NamesGrant(abilities, clauses[i])
    requires g in Named(clauses)
    ensures g in Grants(OneEach(abilities))
  {
    var c, name :| c in clauses && name in c.names && g == (c.uri, Ability(c.namespace, name));
    var i :| 0 <= i < |clauses| && clauses[i] == c;
    assert NamesGrant(abilities, clauses[i]) && name == c.names[0];
    assert g.1 in OneEach(abilities)[g.0];
  }

  lemma OneEachGrants(abilities: map<string, Ability>, clauses: seq<Clause>)
    requires forall i :: 0 <= i < |clauses| ==> |clauses[i].names| == 1 && NamesGrant(abilities, clauses[i])
    requires forall uri :: uri in abilities ==> exists i :: 0 <= i < |clauses| && clauses[i].uri == uri
    ensures Grants(OneEach(abilities)) == Named(clauses)
  {
    forall g: Grant | g in Grants(OneEach(abilities)) ensures g in Named(clauses) {
      GrantIsNamed(abilities, clauses, g);
    }
    forall g: Grant | g in Named(clauses) ensures g in Grants(OneEach(abilities)) {
      NamedIsGrant(abilities, clauses, g);
    }
  }

  /** Clauses of one name each, as a recap with one ability on each URI. */
  lemma OneEachClauses(abilities: map<string, Ability>, clauses: seq<Clause>)
    requires forall i, j :: 0 <= i < j < |clauses| ==> StringLess(clauses[i].uri, clauses[j].uri)
    requires forall i :: 0 <= i < |clauses| ==> |clauses[i].names| == 1 && NamesGrant(abilities, clauses[i])
    requires forall uri :: uri in abilities ==> exists i :: 0 <= i < |clauses| && clauses[i].uri == uri
    ensures ClausesOf(Grants(OneEach(abilities))) == clauses
  {
    OneEachGrants(abilities, clauses);
    OneNameInOrder(clauses);
    OrderedClauses(clauses);
  }

  predicate NamesGrant(abilities: map<string, Ability>, c: Clause) {
    c.uri in abilities && c.names != [] && abilities[c.uri] == Ability(c.namespace, c.names[0])
  }

  function ClauseOf(uri: string, a: Ability): Clause {
    Clause(uri, a.namespace, [a.name])
  }

  lemma TwoUris(u: string, v: string, a: Ability, b: Ability)
    requires StringLess(u, v)
    ensures ClausesOf(Grants(OneEach(map[u := a, v := b]))) == [ClauseOf(u, a), ClauseOf(v, b)]
  {
    var clauses := [ClauseOf(u, a), ClauseOf(v, b)];
    StringLessTotal(u, u);
    forall uri | uri in map[u := a, v := b] ensures exists i :: 0 <= i < |clauses| && clauses[i].uri == uri {
      assert uri == clauses[0].uri || uri == clauses[1].uri;
    }
    OneEachClauses(map[u := a, v := b], clauses);
  }

  lemma ThreeUris(u: string, v: string, w: string, a: Ability, b: Ability, c: Ability)
    requires StringLess(u, v) && StringLess(v, w)
    ensures ClausesOf(Grants(OneEach(map[u := a, v := b, w := c]))) == [ClauseOf(u, a), ClauseOf(v, b), ClauseOf(w, c)]
  {
    var abilities := map[u := a, v := b, w := c];
    var clauses := [ClauseOf(u, a), ClauseOf(v, b), ClauseOf(w, c)];
    StringLessTransitive(u, v, w);
    StringLessTotal(u, u);
    StringLessTotal(v, v);
    forall uri | uri in abilities ensures exists i :: 0 <= i < |clauses| && clauses[i].uri == uri {
      assert uri == clauses[0].uri || uri == clauses[1].uri || uri == clauses[2].uri;
    }
    OneEachClauses(abilities, clauses);
  }

  lemma EarlyRecapClauses(p: AuthorizedApp, q: AuthorizedApp)
    ensures ClausesOf(Grants(OneEach(EarlyRecap(p, q)))) == EarlyClauses(p, q)
  {
    var last := THIRD + LateSplice(q) + NOTIFY_URI;
    EarlyOrder(last, LateSplice(q) + NOTIFY_URI);
    ThreeUris(FIRST, NOTIFY_URI, last, SMALL, AbilityOf(p), SMALL);
  }

  lemma EarlyOrder(last: string, rest: string)
    requires last == THIRD + rest
    ensures StringLess(FIRST, NOTIFY_URI) && StringLess(NOTIFY_URI, last)
  {
    assert last[0] == THIRD[0];
  }

  lemma LateRecapClauses(p: AuthorizedApp, q: AuthorizedApp)
    ensures ClausesOf(Grants(OneEach(LateRecap(p, q)))) == LateClauses(p, q)
  {
    var first := FIRST + EarlySplice(p) + THIRD;
    LateOrder(first, EarlySplice(p) + THIRD);
    TwoUris(first, NOTIFY_URI, SMALL, AbilityOf(q));
  }

  lemma LateOrder(first: string, rest: string)
    requires first == FIRST + rest
    ensures StringLess(first, NOTIFY_URI)
  {
    assert first[0] == FIRST[0];
  }

  // ----- They have one text -----

  lemma ThreeClauses(c: Clause, d: Clause, e: Clause)
    ensures ClausesText(1, [c, d, e]) == ClauseText(1, c) + ClauseText(2, d) + ClauseText(3, e)
  {
    TwoClauses(1, c, d);
    assert [c, d] + [e] == [c, d, e];
    ClausesTextSnoc(1, [c, d], e);
  }

  lemma Spliced(o: string, a: string, s: string, m: string, n: string, t: string, z: string, l: string)
    ensures (o + a + s) + (m + n + s) + (t + (z + (s + l) + n) + s)
         == (o + (a + (s + m + n + s + t) + z) + s) + (l + n + s)
  {
  }

  lemma EarlyText(p: AuthorizedApp, q: AuthorizedApp)
    ensures ClausesText(1, EarlyClauses(p, q))
         == (Opening("1") + FIRST + "'.") + (ManageText(p) + NOTIFY_URI + "'.")
            + (Opening("3") + (THIRD + LateSplice(q) + NOTIFY_URI) + "'.")
  {
    ThreeClauses(Small(FIRST), ClauseFor(p), Small(THIRD + LateSplice(q) + NOTIFY_URI));
    ShortClause(1, "1", FIRST);
    ManageClause(p);
    ShortClause(3, "3", THIRD + LateSplice(q) + NOTIFY_URI);
  }

  lemma LateText(p: AuthorizedApp, q: AuthorizedApp)
    ensures ClausesText(1, LateClauses(p, q))
         == (Opening("1") + (FIRST + EarlySplice(p) + THIRD) + "'.") + (ManageText(q) + NOTIFY_URI + "'.")
  {
    TwoClauses(1, Small(FIRST + EarlySplice(p) + THIRD), ClauseFor(q));
    ShortClause(1, "1", FIRST + EarlySplice(p) + THIRD);
    ManageClause(q);
  }

  lemma OneText(p: AuthorizedApp, q: AuthorizedApp)
    ensures StatementText(EarlyClauses(p, q)) == StatementText(LateClauses(p, q))
  {
    EarlyText(p, q);
    LateText(p, q);
    Spliced(Opening("1"), FIRST, "'.", ManageText(p), NOTIFY_URI, Opening("3"), THIRD, ManageText(q));
  }

  // ----- They are accepted -----

  lemma SplicesPlain(app: AuthorizedApp)
    requires IsApp(app)
    ensures '\n' !in EarlySplice(app) && '\n' !in LateSplice(app)
  {
    assert '\n' !in SUFFIX && '\n' !in ALL_APPS && '\n' !in NOTIFY_URI && '\n' !in Opening("3");
    assert '\n' !in AppName(app);
    assert '\n' !in " (2) 'manage': '" && '\n' !in "' for '";
  }

  lemma AppAbilityValid(app: AuthorizedApp)
    requires IsApp(app)
    ensures AbilityOf(app).Valid()
  {
    DomainNames();
    BuiltAbilityValid(if app.Limited? then Some(app.domain) else None);
  }

  lemma UriBegins(uri: string, first: string, rest: string)
    requires uri == first + rest && |first| >= 2 && first[1] == ':' && '\n' !in first && '\n' !in rest
    ensures IsUri(uri)
  {
    assert uri[1] == ':';
  }

  /** Reading a recap with one ability on each URI, from the last resource of a message. */
  lemma OneEachParses(resources: seq<string>, payload: string, abilities: map<string, Ability>,
                      decode: string -> Result<RawDetails, RecapError>)
    requires resources == [RECAP_URI_PREFIX + payload] && decode(payload) == Ok(OneEachRaw(abilities))
    requires forall uri :: uri in abilities ==> abilities[uri].Valid() && IsUri(uri)
    ensures ParseRecap(resources, decode) == Ok(Some(OneEach(abilities)))
    ensures CountRecapUris(resources) == 1
  {
    OneEachReads(abilities);
    assert (RECAP_URI_PREFIX + payload)[|RECAP_URI_PREFIX|..] == payload;
    assert resources[1..] == [];
  }

  lemma OneEachAccepts(m: Message, payload: string, abilities: map<string, Ability>,
                       decode: string -> Result<RawDetails, RecapError>,
                       plain: (string, string) -> Option<AuthorizedApp>, app: AuthorizedApp)
    requires m.resources == [RECAP_URI_PREFIX + payload] && decode(payload) == Ok(OneEachRaw(abilities))
    requires forall uri :: uri in abilities ==> abilities[uri].Valid() && IsUri(uri)
    requires m.statement == Some(Statement(Grants(OneEach(abilities))))
    requires IsApp(app) && NOTIFY_URI in abilities && abilities[NOTIFY_URI] == AbilityOf(app)
    ensures Authorize(m, decode, plain) == Ok(app)
  {
    OneEachParses(m.resources, payload, abilities, decode);
    AcceptsExactly(m.statement.value, OneEach(abilities), app);
  }

  lemma ThreeFit(u: string, v: string, w: string, a: Ability, b: Ability, c: Ability)
    requires a.Valid() && b.Valid() && c.Valid() && IsUri(u) && IsUri(v) && IsUri(w) && v != w
    ensures
      var abilities := map[u := a, v := b, w := c];
      (forall uri :: uri in abilities ==> abilities[uri].Valid() && IsUri(uri)) && abilities[v] == b
  {
  }

  lemma LastUriFits(app: AuthorizedApp, last: string)
    requires IsApp(app) && last == THIRD + LateSplice(app) + NOTIFY_URI
    ensures IsUri(last) && last != NOTIFY_URI
  {
    assert last[0] == THIRD[0];
    SplicesPlain(app);
    UriBegins(last, THIRD, LateSplice(app) + NOTIFY_URI);
  }

  lemma EarlyUris(p: AuthorizedApp, q: AuthorizedApp)
    requires IsApp(p) && IsApp(q)
    ensures forall uri :: uri in EarlyRecap(p, q) ==> EarlyRecap(p, q)[uri].Valid() && IsUri(uri)
    ensures NOTIFY_URI in EarlyRecap(p, q) && EarlyRecap(p, q)[NOTIFY_URI] == AbilityOf(p)
  {
    var last := THIRD + LateSplice(q) + NOTIFY_URI;
    LastUriFits(q, last);
    UriBegins(FIRST, FIRST, "");
    NotifyUriIsUri();
    AppAbilityValid(p);
    ThreeFit(FIRST, NOTIFY_URI, last, SMALL, AbilityOf(p), SMALL);
  }

  lemma LateUris(p: AuthorizedApp, q: AuthorizedApp)
    requires IsApp(p) && IsApp(q)
    ensures forall uri :: uri in LateRecap(p, q) ==> LateRecap(p, q)[uri].Valid() && IsUri(uri)
    ensures NOTIFY_URI in LateRecap(p, q) && LateRecap(p, q)[NOTIFY_URI] == AbilityOf(q)
  {
    SplicesPlain(p);
    UriBegins(FIRST + EarlySplice(p) + THIRD, FIRST, EarlySplice(p) + THIRD);
    NotifyUriIsUri();
    AppAbilityValid(q);
  }

  /**
   Without the guard on URIs one signed statement does not fix the app: for any two apps there are two recaps with
   one statement, which is accepted for the first app with the one and for the second app with the other.
   */
  lemma TwoAppsOneStatement(p: AuthorizedApp, q: AuthorizedApp, m: Message, n: Message, mPayload: string,
                            nPayload: string, decode: string -> Result<RawDetails, RecapError>,
                            plain: (string, string) -> Option<AuthorizedApp>)
    requires IsApp(p) && IsApp(q)
    requires m.resources == [RECAP_URI_PREFIX + mPayload] && decode(mPayload) == Ok(OneEachRaw(EarlyRecap(p, q)))
    requires n.resources == [RECAP_URI_PREFIX + nPayload] && decode(nPayload) == Ok(OneEachRaw(LateRecap(p, q)))
    requires m.statement == n.statement == Some(StatementText(EarlyClauses(p, q)))
    ensures Authorize(m, decode, plain) == Ok(p) && Authorize(n, decode, plain) == Ok(q)
  {
    OneText(p, q);
    EarlyRecapClauses(p, q);
    LateRecapClauses(p, q);
    EarlyUris(p, q);
    LateUris(p, q);
    OneEachAccepts(m, mPayload, EarlyRecap(p, q), decode, plain, p);
    OneEachAccepts(n, nPayload, LateRecap(p, q), decode, plain, q);
  }
}
