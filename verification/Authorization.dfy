/**
 How a signed message is turned into an authorization (src/auth.rs:852-940): for one app or for all apps, read
 from the recap in its last resource (src/siwx/erc5573.rs:70-103), which its statement must end with.

 Base64 and JSON decoding stand for any function `decode`; statements without a recap are read by any function
 `plain`.
 */
module Authorization {
  import opened Wrappers
  import opened Ordering
  import opened Recap
  import opened Ambiguity
  import opened SignedStatement
  import StatementBuilder

  datatype Json = Null | Bool(bool) | Number(string) | Text(string) | Array(seq<Json>) | Object(map<string, Json>)

  /** `ReCapDetailsObject`: the objects of each ability on each URI. */
  type Details = map<string, map<Ability, seq<Json>>>

  /** The same before the ability strings are parsed. */
  type RawDetails = map<string, map<string, seq<Json>>>

  datatype AuthorizedApp = Limited(domain: string) | Unlimited

  datatype RecapError = Decode | BadJson | InvalidUri

  datatype AuthError =
    | StatementMissing
    | MoreThanOneRecapUri
    | RecapParse(RecapError)
    | StatementDoesNotMatchRecap
    | NoNotifyUri
    | MoreThanOneAbility
    | NoAbilities
    | NamespaceNotManage
    | NameNotNotifications
    | MoreThanOneObject
    | EmptyObjects
    | NonEmptyObject
    | NameNotValidDomain
    | StatementInvalid

  datatype Message = Message(statement: Option<string>, resources: seq<string>, domain: string)

  const RECAP_URI_PREFIX := "urn:recap:"
  const NOTIFY_URI := "https://notify.walletconnect.com"
  const MANAGE := "manage"
  const ALL_APPS := "all-apps"
  const SUFFIX := "-notifications"
  const EMPTY_OBJECT := Object(map[])

  // ----- Parsing the recap -----

  /** `^.+:.*$`, where a dot is any character but a line feed. */
  predicate IsUri(s: string) {
    '\n' !in s && exists i :: 1 <= i < |s| && s[i] == ':'
  }

  predicate IsRecapUri(s: string) {
    RECAP_URI_PREFIX <= s
  }

  function CountRecapUris(resources: seq<string>): nat {
    if resources == [] then
      0
    else
      (if IsRecapUri(resources[0]) then 1 else 0) + CountRecapUris(resources[1..])
  }

  predicate AbilitiesParse(raw: map<string, seq<Json>>) {
    forall s :: s in raw ==> ParseAbility(s).Some?
  }

  ghost function ParsedKeys(raw: map<string, seq<Json>>): set<Ability>
    requires AbilitiesParse(raw)
  {
    set s | s in raw :: ParseAbility(s).value
  }

  ghost function ReadAbilities(raw: map<string, seq<Json>>): map<Ability, seq<Json>>
    requires AbilitiesParse(raw)
  {
    ObjectsOf(raw, ParsedKeys(raw))
  }

  ghost function ObjectsOf(raw: map<string, seq<Json>>, keys: set<Ability>): map<Ability, seq<Json>> {
    map a | a in keys && a.Format() in raw :: raw[a.Format()]
  }

  /** Reading the JSON object: every ability string must parse. */
  ghost function Deserialize(raw: RawDetails): Option<Details> {
    if forall uri :: uri in raw ==> AbilitiesParse(raw[uri]) then
      Some(map uri | uri in raw :: ReadAbilities(raw[uri]))
    else
      None
  }

  ghost predicate FormatOf(raw: map<string, seq<Json>>, abilities: map<Ability, seq<Json>>) {
    && (forall a :: a in abilities ==> a.Valid() && a.Format() in raw && raw[a.Format()] == abilities[a])
    && (forall s :: s in raw ==> exists a :: a in abilities && s == a.Format())
  }

  lemma FormattedKey(raw: map<string, seq<Json>>, abilities: map<Ability, seq<Json>>, s: string)
    requires FormatOf(raw, abilities) && s in raw
    ensures ParseAbility(s).Some? && ParseAbility(s).value in abilities.Keys
  {
    var a :| a in abilities && s == a.Format();
    AbilityRoundTrip(s, a);
  }

  lemma ParsedKey(raw: map<string, seq<Json>>, a: Ability)
    requires AbilitiesParse(raw) && a.Valid() && a.Format() in raw
    ensures a in ParsedKeys(raw)
  {
    AbilityRoundTrip(a.Format(), a);
  }

  lemma ParsedWithin(raw: map<string, seq<Json>>, keys: set<Ability>)
    requires AbilitiesParse(raw) && forall s :: s in raw ==> ParseAbility(s).value in keys
    ensures ParsedKeys(raw) <= keys
  {
  }

  lemma ParsedCovers(raw: map<string, seq<Json>>, keys: set<Ability>)
    requires AbilitiesParse(raw) && forall a :: a in keys ==> a.Valid() && a.Format() in raw
    ensures keys <= ParsedKeys(raw)
  {
    forall a | a in keys ensures a in ParsedKeys(raw) {
      ParsedKey(raw, a);
    }
  }

  lemma FormatsParse(raw: map<string, seq<Json>>, abilities: map<Ability, seq<Json>>)
    requires FormatOf(raw, abilities)
    ensures AbilitiesParse(raw) && forall s :: s in raw ==> ParseAbility(s).value in abilities.Keys
  {
    forall s | s in raw ensures ParseAbility(s).Some? && ParseAbility(s).value in abilities.Keys {
      FormattedKey(raw, abilities, s);
    }
  }

  lemma FormatKeys(raw: map<string, seq<Json>>, abilities: map<Ability, seq<Json>>)
    requires FormatOf(raw, abilities)
    ensures AbilitiesParse(raw) && ParsedKeys(raw) == abilities.Keys
  {
    FormatsParse(raw, abilities);
    ParsedWithin(raw, abilities.Keys);
    ParsedCovers(raw, abilities.Keys);
  }

  lemma FormatObjects(raw: map<string, seq<Json>>, abilities: map<Ability, seq<Json>>)
    requires FormatOf(raw, abilities)
    ensures ObjectsOf(raw, abilities.Keys) == abilities
  {
  }

  lemma FormatParses(raw: map<string, seq<Json>>, abilities: map<Ability, seq<Json>>)
    requires FormatOf(raw, abilities)
    ensures AbilitiesParse(raw) && ReadAbilities(raw) == abilities
  {
    FormatKeys(raw, abilities);
    FormatObjects(raw, abilities);
  }

  lemma ParsesFormat(raw: map<string, seq<Json>>)
    requires AbilitiesParse(raw)
    ensures FormatOf(raw, ReadAbilities(raw))
  {
    forall s | s in raw
      ensures ParseAbility(s).value.Valid() && s == ParseAbility(s).value.Format()
    {
      AbilityRoundTrip(s, ParseAbility(s).value);
    }
    forall s | s in raw ensures exists a :: a in ReadAbilities(raw) && s == a.Format() {
      assert ParseAbility(s).value in ReadAbilities(raw);
    }
  }

  ghost predicate IsSerialization(raw: RawDetails, att: Details) {
    raw.Keys == att.Keys && forall uri :: uri in raw && uri in att ==> FormatOf(raw[uri], att[uri])
  }

  lemma SerializationReads(raw: RawDetails, att: Details)
    requires IsSerialization(raw, att)
    ensures Deserialize(raw) == Some(att)
  {
    forall uri | uri in raw ensures uri in att && AbilitiesParse(raw[uri]) && ReadAbilities(raw[uri]) == att[uri] {
      assert uri in att.Keys;
      FormatParses(raw[uri], att[uri]);
    }
    var read := map uri | uri in raw :: ReadAbilities(raw[uri]);
    assert read.Keys == att.Keys;
    forall uri | uri in read ensures read[uri] == att[uri] {
    }
    assert read == att;
  }

  /** Reading undoes writing, and accepts nothing else: the recap read is the one whose ability strings are these. */
  lemma DeserializeExactly(raw: RawDetails, att: Details)
    ensures Deserialize(raw) == Some(att) <==> IsSerialization(raw, att)
  {
    if IsSerialization(raw, att) {
      SerializationReads(raw, att);
    }
    if Deserialize(raw) == Some(att) {
      forall uri | uri in raw ensures FormatOf(raw[uri], ReadAbilities(raw[uri])) {
        ParsesFormat(raw[uri]);
      }
      assert att.Keys == raw.Keys;
    }
  }

  /** `parse_recap` on the last resource; `Ok(None)` when that is not a recap URI. */
  ghost function ParseRecap(resources: seq<string>, decode: string -> Result<RawDetails, RecapError>)
    : Result<Option<Details>, RecapError>
  {
    if resources == [] || !IsRecapUri(resources[|resources| - 1]) then
      Ok(None)
    else
      match decode(resources[|resources| - 1][|RECAP_URI_PREFIX|..])
      case Err(e) => Err(e)
      case Ok(raw) =>
        match Deserialize(raw)
        case None => Err(BadJson)
        case Some(att) =>
          if forall uri :: uri in att ==> IsUri(uri) || uri == "eip155" then Ok(Some(att)) else Err(InvalidUri)
  }

  // ----- Interpreting it -----

  ghost function Grants(att: Details): set<Grant> {
    set uri, a | uri in att && a in att[uri] :: (uri, a)
  }

  /** `^[a-zA-Z0-9.-]+$` */
  predicate IsDomain(s: string) {
    s != "" && forall c :: c in s ==> IsDomainChar(c)
  }

  predicate IsDomainChar(c: char) {
    'a' <= c <= 'z' || 'A' <= c <= 'Z' || '0' <= c <= '9' || c == '.' || c == '-'
  }

  function InterpretAbility(ability: Ability, objects: seq<Json>): Result<AuthorizedApp, AuthError> {
    if ability.namespace != MANAGE then
      Err(NamespaceNotManage)
    else if !EndsWith(ability.name, SUFFIX) then
      Err(NameNotNotifications)
    else if |objects| > 1 then
      Err(MoreThanOneObject)
    else if objects == [] then
      Err(EmptyObjects)
    else if objects[0] != EMPTY_OBJECT then
      Err(NonEmptyObject)
    else
      var app := ability.name[..|ability.name| - |SUFFIX|];
      if app == ALL_APPS then
        Ok(Unlimited)
      else if IsDomain(app) then
        Ok(Limited(app))
      else
        Err(NameNotValidDomain)
  }

  ghost function InterpretRecap(statement: string, att: Details): Result<AuthorizedApp, AuthError> {
    if !EndsWith(statement, Statement(Grants(att))) then
      Err(StatementDoesNotMatchRecap)
    else if NOTIFY_URI !in att then
      Err(NoNotifyUri)
    else if |att[NOTIFY_URI]| > 1 then
      Err(MoreThanOneAbility)
    else if att[NOTIFY_URI] == map[] then
      Err(NoAbilities)
    else
      var ability :| ability in att[NOTIFY_URI];
      InterpretAbility(ability, att[NOTIFY_URI][ability])
  }

  ghost function Authorize(m: Message, decode: string -> Result<RawDetails, RecapError>,
                           plain: (string, string) -> Option<AuthorizedApp>): Result<AuthorizedApp, AuthError>
  {
    if m.statement.None? then
      Err(StatementMissing)
    else if CountRecapUris(m.resources) > 1 then
      Err(MoreThanOneRecapUri)
    else
      match ParseRecap(m.resources, decode)
      case Err(e) => Err(RecapParse(e))
      case Ok(Some(att)) => InterpretRecap(m.statement.value, att)
      case Ok(None) =>
        match plain(m.statement.value, m.domain)
        case None => Err(StatementInvalid)
        case Some(app) => Ok(app)
  }

  /** The entries of the maps of a recap, in some order of iteration. */
  ghost predicate Iterates(entries: seq<StatementBuilder.Entry>, att: Details) {
    && StatementBuilder.FromMaps(entries)
    && (forall uri :: uri in att <==> exists i :: 0 <= i < |entries| && entries[i].0 == uri)
    && (forall i :: 0 <= i < |entries| ==> entries[i].0 in att && Elements(entries[i].1) == att[entries[i].0].Keys)
  }

  /** The statement built from the entries, in whatever order, is the one the recap is checked against. */
  method BuildFor(entries: seq<StatementBuilder.Entry>, ghost att: Details) returns (statement: string)
    requires Iterates(entries, att)
    ensures statement == Statement(Grants(att))
  {
    statement := StatementBuilder.BuildStatement(entries);
    IteratedGrants(entries, att);
  }

  lemma IteratedGrants(entries: seq<StatementBuilder.Entry>, att: Details)
    requires Iterates(entries, att)
    ensures StatementBuilder.GrantsOf(entries) == Grants(att)
  {
    forall g: Grant ensures g in StatementBuilder.GrantsOf(entries) <==> g in Grants(att) {
      if g in Grants(att) {
        var i :| 0 <= i < |entries| && entries[i].0 == g.0;
        assert entries[i] in entries && g.1 in Elements(entries[i].1);
      }
      if g in StatementBuilder.GrantsOf(entries) {
        var e :| e in entries && e.0 == g.0 && g.1 in e.1;
        assert g.1 in Elements(e.1);
      }
    }
  }

  // ----- What acceptance means -----

  /** The name of an app in an ability. */
  function AppName(app: AuthorizedApp): string {
    match app
    case Limited(domain) => domain
    case Unlimited => ALL_APPS
  }

  /** The domain of a limited app is a domain name, and not the word for all apps. */
  predicate IsApp(app: AuthorizedApp) {
    app.Limited? ==> IsDomain(app.domain) && app.domain != ALL_APPS
  }

  function AbilityOf(app: AuthorizedApp): Ability {
    Ability(MANAGE, AppName(app) + SUFFIX)
  }

  lemma InterpretAbilityExactly(ability: Ability, objects: seq<Json>, app: AuthorizedApp)
    ensures InterpretAbility(ability, objects) == Ok(app) <==>
      IsApp(app) && ability == AbilityOf(app) && objects == [EMPTY_OBJECT]
  {
    var name := ability.name;
    if EndsWith(name, SUFFIX) {
      assert name == name[..|name| - |SUFFIX|] + SUFFIX;
    }
    if ability == AbilityOf(app) {
      assert name[|name| - |SUFFIX|..] == SUFFIX;
      assert name[..|name| - |SUFFIX|] == AppName(app);
    }
  }

  lemma OneKey<K, V>(m: map<K, V>, k: K)
    requires k in m
    ensures |m| <= 1 <==> m == map[k := m[k]]
  {
    var rest := m - {k};
    assert m == rest[k := m[k]];
    if |m| <= 1 {
      assert |rest| == |m| - 1;
      assert rest == map[];
    }
  }

  /**
   A recap is accepted for an app exactly when the statement ends with the recap's statement and the recap grants,
   on the URI of this service, the ability that names this app and nothing else.
   */
  lemma AcceptsExactly(statement: string, att: Details, app: AuthorizedApp)
    ensures InterpretRecap(statement, att) == Ok(app) <==>
      && EndsWith(statement, Statement(Grants(att)))
      && IsApp(app)
      && NOTIFY_URI in att
      && att[NOTIFY_URI] == map[AbilityOf(app) := [EMPTY_OBJECT]]
  {
    if NOTIFY_URI in att && att[NOTIFY_URI] != map[] {
      var abilities := att[NOTIFY_URI];
      forall ability | ability in abilities
        ensures |abilities| <= 1 <==> abilities == map[ability := abilities[ability]]
        ensures InterpretAbility(ability, abilities[ability]) == Ok(app) <==>
          IsApp(app) && ability == AbilityOf(app) && abilities[ability] == [EMPTY_OBJECT]
      {
        OneKey(abilities, ability);
        InterpretAbilityExactly(ability, abilities[ability], app);
      }
    }
  }

  predicate LastIsRecap(resources: seq<string>) {
    resources != [] && "urn:recap:" <= resources[|resources| - 1]
  }

  /** No two resources are recaps. */
  ghost predicate OneRecapAtMost(resources: seq<string>) {
    forall i, j :: 0 <= i < j < |resources| ==> !("urn:recap:" <= resources[i] && "urn:recap:" <= resources[j])
  }

  ghost predicate NoRecap(resources: seq<string>) {
    forall i :: 0 <= i < |resources| ==> !("urn:recap:" <= resources[i])
  }

  lemma {:induction false} CountExactly(resources: seq<string>)
    ensures CountRecapUris(resources) == 0 <==> NoRecap(resources)
    ensures CountRecapUris(resources) <= 1 <==> OneRecapAtMost(resources)
  {
    if resources != [] {
      var rest := resources[1..];
      CountExactly(rest);
      assert forall i :: 0 <= i < |rest| ==> rest[i] == resources[i + 1];
      assert forall i :: 0 < i < |resources| ==> resources[i] == rest[i - 1];
      OneMoreResource(resources);
    }
  }

  lemma OneMoreResource(resources: seq<string>)
    requires resources != []
    ensures NoRecap(resources) <==> !("urn:recap:" <= resources[0]) && NoRecap(resources[1..])
    ensures OneRecapAtMost(resources) <==>
      if "urn:recap:" <= resources[0] then NoRecap(resources[1..]) else OneRecapAtMost(resources[1..])
  {
    var rest := resources[1..];
    assert forall i :: 0 <= i < |rest| ==> rest[i] == resources[i + 1];
    assert forall i :: 0 < i < |resources| ==> resources[i] == rest[i - 1];
  }

  /** The payload of the last resource is this recap, with well-formed URIs. */
  ghost predicate CarriesRecap(resources: seq<string>, decode: string -> Result<RawDetails, RecapError>, att: Details)
    requires LastIsRecap(resources)
  {
    exists raw ::
      && decode(resources[|resources| - 1][|"urn:recap:"|..]) == Ok(raw) && IsSerialization(raw, att)
      && forall uri :: uri in att ==> IsUri(uri) || uri == "eip155"
  }

  lemma ParsesExactly(resources: seq<string>, decode: string -> Result<RawDetails, RecapError>, att: Details)
    requires LastIsRecap(resources)
    ensures ParseRecap(resources, decode) == Ok(Some(att)) <==> CarriesRecap(resources, decode, att)
  {
    var decoded := decode(resources[|resources| - 1][|RECAP_URI_PREFIX|..]);
    if decoded.Ok? {
      DeserializeExactly(decoded.value, att);
    }
  }

  /** What the statement of a message says about the app, by the recap that comes with it. */
  ghost predicate IsAcceptedFor(statement: string, att: Details, app: AuthorizedApp) {
    && EndsWith(statement, Statement(Grants(att)))
    && IsApp(app) && NOTIFY_URI in att && att[NOTIFY_URI] == map[AbilityOf(app) := [EMPTY_OBJECT]]
  }

  /**
   A message authorizes an app exactly when it has a statement, at most one recap, and either its last resource is a
   recap that can be read and is accepted for this app, or the statement without a recap is read as this app.
   */
  lemma AuthorizeExactly(m: Message, decode: string -> Result<RawDetails, RecapError>,
                         plain: (string, string) -> Option<AuthorizedApp>, app: AuthorizedApp)
    ensures Authorize(m, decode, plain) == Ok(app) <==>
      && m.statement.Some? && OneRecapAtMost(m.resources)
      && if LastIsRecap(m.resources) then
           exists att :: CarriesRecap(m.resources, decode, att) && IsAcceptedFor(m.statement.value, att, app)
         else
           plain(m.statement.value, m.domain) == Some(app)
  {
    CountExactly(m.resources);
    if m.statement.Some? && LastIsRecap(m.resources) {
      forall att
        ensures ParseRecap(m.resources, decode) == Ok(Some(att)) <==> CarriesRecap(m.resources, decode, att)
        ensures InterpretRecap(m.statement.value, att) == Ok(app) <==> IsAcceptedFor(m.statement.value, att, app)
      {
        ParsesExactly(m.resources, decode, att);
        AcceptsExactly(m.statement.value, att, app);
      }
    }
  }

  /** Why the one ability on the URI of this service is refused: the first reason that holds. */
  lemma RefusedFor(namespace: string, name: string, objects: seq<Json>)
    ensures
      var result := InterpretAbility(Ability(namespace, name), objects);
      var named := namespace == "manage" && exists app :: name == app + "-notifications";
      && (result == Err(NamespaceNotManage) <==> namespace != "manage")
      && (result == Err(NameNotNotifications) <==> namespace == "manage" && !named)
      && (result == Err(MoreThanOneObject) <==> named && |objects| > 1)
      && (result == Err(EmptyObjects) <==> named && |objects| == 0)
      && (result == Err(NonEmptyObject) <==> named && |objects| == 1 && objects[0] != EMPTY_OBJECT)
      && (result == Err(NameNotValidDomain) <==>
            named && objects == [EMPTY_OBJECT] && forall app :: name == app + "-notifications" ==>
              !IsDomain(app) && app != "all-apps")
  {
    if EndsWith(name, SUFFIX) {
      assert name == name[..|name| - |SUFFIX|] + SUFFIX;
    }
    forall app | name == app + "-notifications" ensures EndsWith(name, SUFFIX) && app == name[..|name| - |SUFFIX|] {
      assert name[|name| - |SUFFIX|..] == SUFFIX;
    }
  }

  // ----- The statement names the app -----

  ghost predicate GrantsApp(att: Details, app: AuthorizedApp) {
    NOTIFY_URI in att && att[NOTIFY_URI] == map[AbilityOf(app) := [EMPTY_OBJECT]]
  }

  lemma GrantsOnNotifyUri(att: Details, app: AuthorizedApp)
    requires GrantsApp(att, app)
    ensures (NOTIFY_URI, AbilityOf(app)) in Grants(att)
    ensures Names(Grants(att), NOTIFY_URI, MANAGE) == {AppName(app) + SUFFIX}
    ensures forall p :: p in Pairs(Grants(att)) && p.0 == NOTIFY_URI ==> p.1 == MANAGE
  {
    assert AbilityOf(app) in att[NOTIFY_URI];
    assert (NOTIFY_URI, AbilityOf(app)) in Grants(att);
  }

  lemma SingleName(names: seq<string>, name: string)
    requires StrictlySorted(StringLess, names) && Elements(names) == {name}
    ensures names == [name]
  {
    assert name in Elements(names);
    forall i | 0 <= i < |names| ensures names[i] == name {
      assert names[i] in Elements(names);
    }
    if |names| > 1 {
      StringLessTotal(names[0], names[1]);
    }
  }

  lemma OneClauseOnNotifyUri(att: Details, app: AuthorizedApp) returns (i: nat)
    requires GrantsApp(att, app)
    ensures i < |ClausesOf(Grants(att))|
    ensures ClausesOf(Grants(att))[i] == Clause(NOTIFY_URI, MANAGE, [AppName(app) + SUFFIX])
    ensures forall j :: 0 <= j < |ClausesOf(Grants(att))| && ClausesOf(Grants(att))[j].uri == NOTIFY_URI ==> j == i
  {
    var grants := Grants(att);
    var clauses := ClausesOf(grants);
    GrantsOnNotifyUri(att, app);
    ClausesOfCanonical(grants);
    ClausesNameGrants(grants, NOTIFY_URI, MANAGE, AppName(app) + SUFFIX);
    i :| 0 <= i < |clauses| && clauses[i].uri == NOTIFY_URI && clauses[i].namespace == MANAGE &&
         AppName(app) + SUFFIX in clauses[i].names;
    assert NamesRight(grants, clauses[i]);
    SingleName(clauses[i].names, AppName(app) + SUFFIX);
    forall j | 0 <= j < |clauses| && clauses[j].uri == NOTIFY_URI ensures j == i {
      assert PairsOf(clauses)[j] in Elements(PairsOf(clauses));
      PairLessLaws(Pair(clauses[i]), Pair(clauses[j]), Pair(clauses[j]));
      assert PairsOf(clauses)[i] == PairsOf(clauses)[j];
    }
  }

  /**
   Whenever a recap is accepted for an app, the text that was signed has a numbered clause which names that app on
   the URI of this service, and no other clause on that URI.
   */
  lemma AcceptedStatementNamesApp(statement: string, att: Details, app: AuthorizedApp)
      returns (before: string, index: nat, after: string)
    requires InterpretRecap(statement, att) == Ok(app)
    ensures statement == before + ClauseText(index, Clause(NOTIFY_URI, MANAGE, [AppName(app) + SUFFIX])) + after
    ensures 1 <= index <= |ClausesOf(Grants(att))|
    ensures forall j :: 0 <= j < |ClausesOf(Grants(att))| && j != index - 1 ==>
      ClausesOf(Grants(att))[j].uri != NOTIFY_URI
  {
    AcceptsExactly(statement, att, app);
    var clauses := ClausesOf(Grants(att));
    var i := OneClauseOnNotifyUri(att, app);
    index := 1 + i;
    before, after := ClauseInStatement(statement, Grants(att), i);
  }

  /** A text that ends with a statement contains each of its clauses. */
  lemma ClauseInStatement(signed: string, grants: set<Grant>, i: nat) returns (before: string, after: string)
    requires EndsWith(signed, Statement(grants)) && i < |ClausesOf(grants)|
    ensures signed == before + ClauseText(1 + i, ClausesOf(grants)[i]) + after
  {
    var clauses := ClausesOf(grants);
    var lead := LeadOf(signed, Statement(grants));
    var skipped := ClausesText(1, clauses[..i]);
    TextAround(1, clauses, i);
    before, after := lead + HEADER + skipped, ClausesText(2 + i, clauses[i + 1..]);
    Behind(lead, HEADER, skipped, ClauseText(1 + i, clauses[i]), after);
  }

  lemma LeadOf(s: string, suffix: string) returns (lead: string)
    requires EndsWith(s, suffix)
    ensures s == lead + suffix
  {
    lead := s[..|s| - |suffix|];
  }

  lemma Behind(a: string, b: string, c: string, d: string, e: string)
    ensures a + (b + (c + (d + e))) == a + b + c + d + e
  {
  }

  // ----- One statement, one app -----

  /** No URI spells a clause or begins a statement: URIs without a single quote do neither. */
  ghost predicate SignableUris(att: Details) {
    forall uri :: uri in att ==> !SpellsClause(uri) && !Begins(uri)
  }

  lemma ParsedIsSignable(resources: seq<string>, decode: string -> Result<RawDetails, RecapError>, att: Details)
    requires ParseRecap(resources, decode) == Ok(Some(att)) && SignableUris(att)
    ensures Signable(Grants(att))
  {
    var raw := decode(resources[|resources| - 1][|RECAP_URI_PREFIX|..]).value;
    DeserializeExactly(raw, att);
    forall g | g in Grants(att) ensures g.1.Valid() && !SpellsClause(g.0) && !Begins(g.0) {
      assert g.0 in att.Keys;
    }
  }

  /**
   One signed statement authorizes at most one app: two messages with the same statement, whatever recaps they carry,
   are accepted for the same app, and their recaps grant the same.
   */
  lemma SameStatementSameApp(m: Message, n: Message, decode: string -> Result<RawDetails, RecapError>,
                             plain: (string, string) -> Option<AuthorizedApp>,
                             mAtt: Details, nAtt: Details, mApp: AuthorizedApp, nApp: AuthorizedApp)
    requires m.statement == n.statement
    requires ParseRecap(m.resources, decode) == Ok(Some(mAtt)) && SignableUris(mAtt)
    requires ParseRecap(n.resources, decode) == Ok(Some(nAtt)) && SignableUris(nAtt)
    requires Authorize(m, decode, plain) == Ok(mApp) && Authorize(n, decode, plain) == Ok(nApp)
    ensures mApp == nApp && Grants(mAtt) == Grants(nAtt)
  {
    ParsedIsSignable(m.resources, decode, mAtt);
    ParsedIsSignable(n.resources, decode, nAtt);
    var signed := m.statement.value;
    AcceptsExactly(signed, mAtt, mApp);
    AcceptsExactly(signed, nAtt, nApp);
    SignedStatementDecides(signed, Grants(mAtt), Grants(nAtt));
    GrantsOnNotifyUri(mAtt, mApp);
    GrantsOnNotifyUri(nAtt, nApp);
    SameName(mApp, nApp);
  }

  lemma SameName(a: AuthorizedApp, b: AuthorizedApp)
    requires IsApp(a) && IsApp(b) && AppName(a) + SUFFIX == AppName(b) + SUFFIX
    ensures a == b
  {
    assert AppName(a) == (AppName(a) + SUFFIX)[..|AppName(a)|];
    assert AppName(b) == (AppName(b) + SUFFIX)[..|AppName(b)|];
  }

  /** A domain consists of the characters of a namespace, without three of them. */
  lemma DomainChars(c: char)
    ensures IsDomainChar(c) <==> IsNamespaceChar(c) && c !in "*_+"
  {
  }

  // ----- Round trip -----

  function NameFor(domain: Option<string>): string {
    (if domain.Some? then domain.value else ALL_APPS) + SUFFIX
  }

  /** `build_recap_details_object`. */
  function BuildDetails(domain: Option<string>): Details {
    map[NOTIFY_URI := map[Ability(MANAGE, NameFor(domain)) := [EMPTY_OBJECT]]]
  }

  /** The same as it is serialized. */
  function BuildRaw(domain: Option<string>): RawDetails {
    map[NOTIFY_URI := map[Ability(MANAGE, NameFor(domain)).Format() := [EMPTY_OBJECT]]]
  }

  predicate NameCharsOnly(s: string) {
    forall c :: c in s ==> IsNameChar(c)
  }

  lemma BuiltAbilityValid(domain: Option<string>)
    ensures Ability(MANAGE, NameFor(domain)).Valid() <==> (domain.Some? ==> NameCharsOnly(domain.value))
  {
    assert NameCharsOnly(SUFFIX) && NameCharsOnly(ALL_APPS);
    assert forall c :: c in MANAGE ==> IsNamespaceChar(c);
    if domain.Some? && Ability(MANAGE, NameFor(domain)).Valid() {
      forall c | c in domain.value ensures IsNameChar(c) {
        assert c in domain.value + SUFFIX;
      }
    }
  }

  lemma BuiltReads(domain: Option<string>)
    ensures Deserialize(BuildRaw(domain)) ==
      if Ability(MANAGE, NameFor(domain)).Valid() then Some(BuildDetails(domain)) else None
  {
    var a := Ability(MANAGE, NameFor(domain));
    if a.Valid() {
      SerializationReads(BuildRaw(domain), BuildDetails(domain));
    } else {
      assert a.Format() in BuildRaw(domain)[NOTIFY_URI];
      assert '/' !in MANAGE;
      SlashAfter(MANAGE, NameFor(domain));
      assert a.Format()[..|MANAGE|] == MANAGE && a.Format()[|MANAGE| + 1..] == NameFor(domain);
    }
  }

  lemma BuiltClauses(domain: Option<string>)
    ensures ClausesOf(Grants(BuildDetails(domain))) == [Clause(NOTIFY_URI, MANAGE, [NameFor(domain)])]
  {
    var grants, c := Grants(BuildDetails(domain)), Clause(NOTIFY_URI, MANAGE, [NameFor(domain)]);
    var g := (NOTIFY_URI, Ability(MANAGE, NameFor(domain)));
    assert Ability(MANAGE, NameFor(domain)) in BuildDetails(domain)[NOTIFY_URI];
    assert grants == {g};
    assert Names(grants, NOTIFY_URI, MANAGE) == {NameFor(domain)};
    assert Elements(PairsOf([c])) == {Pair(c)} == Pairs(grants);
    CanonicalUnique(grants, [c]);
  }

  /** What a user signs for an app, or for all apps. */
  lemma WhatIsSigned(domain: Option<string>)
    ensures Statement(Grants(BuildDetails(domain)))
         == "I further authorize the stated URI " + "to perform the following actions " + "on my behalf:"
            + (" (1) 'manage': '" + (if domain.Some? then domain.value else "all-apps") + "-notifications'"
               + (" for '" + "https://notify.walletconnect.com" + "'."))
  {
    BuiltClauses(domain);
    var c := Clause(NOTIFY_URI, MANAGE, [NameFor(domain)]);
    OneClause(1, c);
    SignedClause(c, if domain.Some? then domain.value else "all-apps");
  }

  lemma FirstOfClause()
    ensures " (" + Decimal(1) + ") '" + MANAGE + "':" == " (1) 'manage':"
  {
    assert Decimal(1) == "1";
  }

  lemma NameInClause(app: string)
    ensures " '" + (app + SUFFIX) + "'" == " '" + app + "-notifications'"
  {
    assert SUFFIX + "'" == "-notifications'";
  }

  lemma SignedClause(c: Clause, app: string)
    requires c == Clause(NOTIFY_URI, MANAGE, [app + SUFFIX])
    ensures ClauseText(1, c)
         == " (1) 'manage': '" + app + "-notifications'" + (" for '" + "https://notify.walletconnect.com" + "'.")
  {
    FirstOfClause();
    NameInClause(app);
    Joined(" (" + Decimal(1) + ") '" + MANAGE + "':", app, " for '", NOTIFY_URI, "'.");
    assert " (1) 'manage':" + " '" == " (1) 'manage': '";
  }

  lemma Joined(first: string, app: string, e: string, f: string, g: string)
    ensures first + (" '" + (app + SUFFIX) + "'") + e + f + g == first + (" '" + (app + SUFFIX) + "'") + (e + f + g)
    ensures first + (" '" + app + "-notifications'") == (first + " '") + app + "-notifications'"
  {
  }

  lemma NotifyUriIsUri()
    ensures IsUri(NOTIFY_URI)
  {
    assert NOTIFY_URI[5] == ':';
  }

  function Outcome(domain: Option<string>): Result<AuthorizedApp, AuthError> {
    if domain == None || domain == Some(ALL_APPS) then
      Ok(Unlimited)
    else if IsDomain(domain.value) then
      Ok(Limited(domain.value))
    else if NameCharsOnly(domain.value) then
      Err(NameNotValidDomain)
    else
      Err(RecapParse(BadJson))
  }

  lemma InterpretBuiltAbility(domain: Option<string>)
    requires domain.Some? ==> NameCharsOnly(domain.value)
    ensures InterpretAbility(Ability(MANAGE, NameFor(domain)), [EMPTY_OBJECT]) == Outcome(domain)
  {
    var name := NameFor(domain);
    assert name[|name| - |SUFFIX|..] == SUFFIX;
    assert name[..|name| - |SUFFIX|] == if domain.Some? then domain.value else ALL_APPS;
  }

  lemma InterpretBuilt(statement: string, domain: Option<string>)
    requires domain.Some? ==> NameCharsOnly(domain.value)
    requires EndsWith(statement, Statement(Grants(BuildDetails(domain))))
    ensures InterpretRecap(statement, BuildDetails(domain)) == Outcome(domain)
  {
    InterpretBuiltAbility(domain);
    OneKey(BuildDetails(domain)[NOTIFY_URI], Ability(MANAGE, NameFor(domain)));
  }

  lemma ParseBuilt(resources: seq<string>, domain: Option<string>, payload: string,
                   decode: string -> Result<RawDetails, RecapError>)
    requires resources != [] && resources[|resources| - 1] == RECAP_URI_PREFIX + payload
    requires decode(payload) == Ok(BuildRaw(domain))
    ensures ParseRecap(resources, decode) ==
      if domain.Some? && !NameCharsOnly(domain.value) then Err(BadJson) else Ok(Some(BuildDetails(domain)))
  {
    BuiltAbilityValid(domain);
    BuiltReads(domain);
    NotifyUriIsUri();
    assert (RECAP_URI_PREFIX + payload)[|RECAP_URI_PREFIX|..] == payload;
  }

  lemma DomainNames()
    ensures NameCharsOnly(ALL_APPS)
    ensures forall s :: IsDomain(s) ==> NameCharsOnly(s)
  {
  }

  /**
   What a recap built for a domain authorizes, for every domain: all apps when there is none, that domain when it is
   a domain name, and an error otherwise. The word for all apps, given as a domain, authorizes all apps.
   */
  lemma RoundTrip(m: Message, domain: Option<string>, payload: string,
                  decode: string -> Result<RawDetails, RecapError>, plain: (string, string) -> Option<AuthorizedApp>)
    requires m.resources != [] && m.resources[|m.resources| - 1] == RECAP_URI_PREFIX + payload
    requires CountRecapUris(m.resources) == 1 && decode(payload) == Ok(BuildRaw(domain))
    requires m.statement.Some? && EndsWith(m.statement.value, Statement(Grants(BuildDetails(domain))))
    ensures Authorize(m, decode, plain) == Outcome(domain)
  {
    DomainNames();
    ParseBuilt(m.resources, domain, payload, decode);
    if domain.Some? ==> NameCharsOnly(domain.value) {
      InterpretBuilt(m.statement.value, domain);
    }
  }
}
