/**
 ReCap statements (src/siwx/erc5573.rs), after the "ReCap Translation Algorithm" section of ERC-5573: what a
 recap grants, the clauses that describe it, the text of the statement, and a reader that recovers the clauses
 from the text.
 */
module Recap {
  import opened Wrappers
  import opened Ordering

  datatype Ability = Ability(namespace: string, name: string) {
    predicate Valid() {
      && namespace != "" && (forall c :: c in namespace ==> IsNamespaceChar(c))
      && name != "" && (forall c :: c in name ==> IsNameChar(c))
    }

    function Format(): string {
      namespace + "/" + name
    }
  }

  predicate IsNamespaceChar(c: char) {
    'a' <= c <= 'z' || 'A' <= c <= 'Z' || '0' <= c <= '9' || c == '.' || c == '*' || c == '_' || c == '+' || c == '-'
  }

  /** The class of the second part is written `A-z`, which also has the six characters between 'Z' and 'a'. */
  predicate IsNameChar(c: char) {
    'A' <= c <= 'z' || '0' <= c <= '9' || c == '.' || c == '*' || c == '+' || c == '-'
  }

  /** The characters of the first part, one by one. */
  lemma NamespaceChars(c: char)
    ensures IsNamespaceChar(c) <==>
      c in "abcdefghijklmnopqrstuvwxyz" || c in "ABCDEFGHIJKLMNOPQRSTUVWXYZ" || c in "0123456789" || c in ".*_+-"
  {
  }

  /** The characters of the second part: besides these, `[`, the backslash, `]`, `^` and the back quote. */
  lemma NameChars(c: char)
    ensures IsNameChar(c) <==> IsNamespaceChar(c) || c in "[\\]^`"
  {
  }

  /** One clause of a statement: the abilities of one namespace on one URI. */
  datatype Clause = Clause(uri: string, namespace: string, names: seq<string>)

  /** A recap grants abilities on URIs. */
  type Grant = (string, Ability)

  predicate QuoteFree(s: string) {
    '\'' !in s
  }

  /** The grants whose text cannot be confused: valid abilities, and URIs without a single quote. */
  ghost predicate Readable(grants: set<Grant>) {
    forall g :: g in grants ==> g.1.Valid() && QuoteFree(g.0)
  }

  // ----- The clauses of a recap -----

  /** Clauses are ordered by URI, then by namespace. */
  predicate PairLess(a: (string, string), b: (string, string)) {
    StringLess(a.0, b.0) || (a.0 == b.0 && StringLess(a.1, b.1))
  }

  lemma PairLessStrictTotal(s: set<(string, string)>)
    ensures StrictTotalOn(PairLess, s)
  {
    forall x: (string, string), y: (string, string), z: (string, string)
      ensures !PairLess(x, x)
      ensures x != y ==> PairLess(x, y) || PairLess(y, x)
      ensures PairLess(x, y) && PairLess(y, z) ==> PairLess(x, z)
    {
      PairLessLaws(x, y, z);
    }
  }

  lemma PairLessLaws(x: (string, string), y: (string, string), z: (string, string))
    ensures !PairLess(x, x)
    ensures x != y ==> PairLess(x, y) || PairLess(y, x)
    ensures PairLess(x, y) && PairLess(y, z) ==> PairLess(x, z)
  {
    StringLessTotal(x.0, y.0);
    StringLessTotal(x.1, y.1);
    if PairLess(x, y) && PairLess(y, z) {
      if StringLess(x.0, y.0) && StringLess(y.0, z.0) {
        StringLessTransitive(x.0, y.0, z.0);
      }
      if StringLess(x.1, y.1) && StringLess(y.1, z.1) {
        StringLessTransitive(x.1, y.1, z.1);
      }
    }
  }

  function Pair(c: Clause): (string, string) {
    (c.uri, c.namespace)
  }

  function PairsOf(clauses: seq<Clause>): seq<(string, string)> {
    seq(|clauses|, i requires 0 <= i < |clauses| => Pair(clauses[i]))
  }

  ghost function Pairs(grants: set<Grant>): set<(string, string)> {
    set g | g in grants :: (g.0, g.1.namespace)
  }

  ghost function Names(grants: set<Grant>, uri: string, namespace: string): set<string> {
    set g | g in grants && g.0 == uri && g.1.namespace == namespace :: g.1.name
  }

  /**
   The canonical form: one clause for each granted (URI, namespace), in strict order, each with its names in
   strict order. Strict order means that no clause and no name is repeated.
   */
  ghost predicate IsCanonical(grants: set<Grant>, clauses: seq<Clause>) {
    && Elements(PairsOf(clauses)) == Pairs(grants)
    && StrictlySorted(PairLess, PairsOf(clauses))
    && forall i :: 0 <= i < |clauses| ==> NamesRight(grants, clauses[i])
  }

  ghost predicate NamesRight(grants: set<Grant>, c: Clause) {
    && Elements(c.names) == Names(grants, c.uri, c.namespace)
    && StrictlySorted(StringLess, c.names)
  }

  ghost function ClausesOf(grants: set<Grant>): seq<Clause> {
    PairLessStrictTotal(Pairs(grants));
    var pairs := Listing(PairLess, Pairs(grants));
    seq(|pairs|, i requires 0 <= i < |pairs| =>
      Clause(pairs[i].0, pairs[i].1, SortedStrings(Names(grants, pairs[i].0, pairs[i].1))))
  }

  ghost function SortedStrings(s: set<string>): seq<string> {
    StringLessStrictTotal(s);
    Listing(StringLess, s)
  }

  lemma SortedStringsSpec(s: set<string>)
    ensures Elements(SortedStrings(s)) == s && StrictlySorted(StringLess, SortedStrings(s))
  {
    StringLessStrictTotal(s);
    ListingSpec(StringLess, s);
  }

  lemma ClausesOfCanonical(grants: set<Grant>)
    ensures IsCanonical(grants, ClausesOf(grants))
  {
    PairLessStrictTotal(Pairs(grants));
    ListingSpec(PairLess, Pairs(grants));
    var clauses := ClausesOf(grants);
    assert PairsOf(clauses) == Listing(PairLess, Pairs(grants));
    forall i | 0 <= i < |clauses| ensures NamesRight(grants, clauses[i]) {
      SortedStringsSpec(Names(grants, clauses[i].uri, clauses[i].namespace));
    }
  }

  /** The clauses stand in the order of their URIs, then of their namespaces, and the names in theirs. */
  lemma DictionaryOrder(grants: set<Grant>, i: nat, j: nat)
    requires i < j < |ClausesOf(grants)|
    ensures
      var a, b := ClausesOf(grants)[i], ClausesOf(grants)[j];
      Precedes(a.uri, b.uri) || (a.uri == b.uri && Precedes(a.namespace, b.namespace))
    ensures
      var names := ClausesOf(grants)[i].names;
      forall k, l :: 0 <= k < l < |names| ==> Precedes(names[k], names[l])
  {
    ClausesOfCanonical(grants);
    var a, b := ClausesOf(grants)[i], ClausesOf(grants)[j];
    assert PairLess(PairsOf(ClausesOf(grants))[i], PairsOf(ClausesOf(grants))[j]);
    StringLessExactly(a.uri, b.uri);
    StringLessExactly(a.namespace, b.namespace);
    assert NamesRight(grants, a);
    forall k, l | 0 <= k < l < |a.names| ensures Precedes(a.names[k], a.names[l]) {
      StringLessExactly(a.names[k], a.names[l]);
    }
  }

  /** There is only one canonical form, whatever order the maps of the recap were iterated in. */
  lemma CanonicalUnique(grants: set<Grant>, clauses: seq<Clause>)
    requires IsCanonical(grants, clauses)
    ensures clauses == ClausesOf(grants)
  {
    PairLessStrictTotal(Pairs(grants));
    ListingIs(PairLess, Pairs(grants), PairsOf(clauses));
    var pairs := Listing(PairLess, Pairs(grants));
    forall i | 0 <= i < |clauses| ensures clauses[i] == ClausesOf(grants)[i] {
      assert pairs[i] == PairsOf(clauses)[i] == Pair(clauses[i]);
      assert NamesRight(grants, clauses[i]);
      StringLessStrictTotal(Names(grants, clauses[i].uri, clauses[i].namespace));
      ListingIs(StringLess, Names(grants, clauses[i].uri, clauses[i].namespace), clauses[i].names);
    }
  }

  /** Every grant is named by a clause, and every name in a clause is granted. */
  lemma ClausesNameGrants(grants: set<Grant>, uri: string, namespace: string, name: string)
    ensures (uri, Ability(namespace, name)) in grants <==>
      exists i :: 0 <= i < |ClausesOf(grants)| &&
        ClausesOf(grants)[i].uri == uri && ClausesOf(grants)[i].namespace == namespace &&
        name in ClausesOf(grants)[i].names
  {
    ClausesOfCanonical(grants);
    var clauses := ClausesOf(grants);
    var g := (uri, Ability(namespace, name));
    if g in grants {
      assert (g.0, g.1.namespace) in Elements(PairsOf(clauses));
      var i :| 0 <= i < |clauses| && PairsOf(clauses)[i] == (uri, namespace);
      assert NamesRight(grants, clauses[i]);
      assert g.1.name in Names(grants, uri, namespace);
    }
    if i :| 0 <= i < |clauses| && clauses[i].uri == uri && clauses[i].namespace == namespace &&
            name in clauses[i].names {
      assert NamesRight(grants, clauses[i]);
      assert name in Elements(clauses[i].names);
    }
  }

  lemma SameClausesSameGrants(a: set<Grant>, b: set<Grant>)
    requires ClausesOf(a) == ClausesOf(b)
    ensures a == b
  {
    forall g: Grant ensures g in a <==> g in b {
      ClausesNameGrants(a, g.0, g.1.namespace, g.1.name);
      ClausesNameGrants(b, g.0, g.1.namespace, g.1.name);
    }
  }

  // ----- The text -----

  const HEADER :=
    "I further authorize the stated URI " + "to perform the following actions " + "on my behalf:"

  const DIGITS := "0123456789"

  function Decimal(n: nat): string {
    if n < 10 then [DIGITS[n]] else Decimal(n / 10) + Decimal(n % 10)
  }

  /** The number that decimal digits stand for. */
  function ValueOf(digits: string): int {
    if digits == "" then
      0
    else
      10 * ValueOf(digits[..|digits| - 1]) + (digits[|digits| - 1] as int - '0' as int)
  }

  predicate IsNumeral(s: string) {
    && s != "" && (forall i :: 0 <= i < |s| ==> '0' <= s[i] <= '9')
    && (|s| > 1 ==> s[0] != '0')
  }

  lemma DigitValue(n: nat)
    requires n < 10
    ensures '0' <= DIGITS[n] <= '9' && DIGITS[n] as int - '0' as int == n
  {
  }

  /** Clauses are numbered in decimal, without leading zeros. */
  lemma {:induction false} DecimalValue(n: nat)
    ensures IsNumeral(Decimal(n)) && ValueOf(Decimal(n)) == n && (n > 0 ==> Decimal(n)[0] != '0')
  {
    if n < 10 {
      DigitValue(n);
      assert [DIGITS[n]][..0] == "";
    } else {
      DecimalValue(n / 10);
      DigitValue(n % 10);
      var lead := Decimal(n / 10);
      assert Decimal(n) == lead + [DIGITS[n % 10]];
      assert Decimal(n)[..|lead|] == lead;
    }
  }

  /** `names.map(|a| format!(" '{}'", a)).join(",")`, continued by what follows the first name. */
  function NamesText(names: seq<string>): string {
    if names == [] then
      ""
    else if |names| == 1 then
      " '" + names[0] + "'"
    else
      " '" + names[0] + "'," + NamesText(names[1..])
  }

  /** A clause up to its URI. */
  function OpeningText(index: nat, c: Clause): string {
    " (" + Decimal(index) + ") '" + c.namespace + "':" + NamesText(c.names) + " for '"
  }

  function ClauseText(index: nat, c: Clause): string {
    OpeningText(index, c) + c.uri + "'."
  }

  function ClausesText(index: nat, clauses: seq<Clause>): string
    decreases |clauses|
  {
    if clauses == [] then "" else ClauseText(index, clauses[0]) + ClausesText(index + 1, clauses[1..])
  }

  function StatementText(clauses: seq<Clause>): string {
    HEADER + ClausesText(1, clauses)
  }

  /** `build_statement`. */
  ghost function Statement(grants: set<Grant>): string {
    StatementText(ClausesOf(grants))
  }

  lemma {:induction false} ClausesTextSnoc(index: nat, clauses: seq<Clause>, c: Clause)
    ensures ClausesText(index, clauses + [c]) == ClausesText(index, clauses) + ClauseText(index + |clauses|, c)
    decreases |clauses|
  {
    if clauses == [] {
      assert clauses + [c] == [c] && [c][1..] == [];
      assert ClausesText(index + 1, []) == "";
    } else {
      assert (clauses + [c])[1..] == clauses[1..] + [c];
      ClausesTextSnoc(index + 1, clauses[1..], c);
    }
  }

  lemma Associate(a: string, b: string, c: string, d: string)
    ensures a + (b + c + d) == (a + b) + c + d
  {
  }

  // ----- Reading a statement -----

  /** The pieces of a text between its single quotes. */
  function Split(s: string): (pieces: seq<string>)
    ensures pieces != []
  {
    if s == "" then
      [""]
    else
      var rest := Split(s[1..]);
      if s[0] == '\'' then [""] + rest else [[s[0]] + rest[0]] + rest[1..]
  }

  /** The names up to the piece " for ", and the pieces behind it. */
  function ReadNames(pieces: seq<string>): (r: (seq<string>, seq<string>))
    ensures |r.1| <= |pieces|
    decreases |pieces|
  {
    if |pieces| < 2 then
      ([], [])
    else if pieces[0] == " for " then
      ([], pieces[1..])
    else
      var r := ReadNames(pieces[2..]);
      ([pieces[1]] + r.0, r.1)
  }

  function ReadClauses(pieces: seq<string>): seq<Clause>
    decreases |pieces|
  {
    if |pieces| < 2 then
      []
    else
      var r := ReadNames(pieces[2..]);
      if r.1 == [] then [] else [Clause(r.1[0], pieces[1], r.0)] + ReadClauses(r.1[1..])
  }

  function ReadStatement(s: string): seq<Clause> {
    ReadClauses(Split(s))
  }

  ghost predicate QuoteFreeParts(c: Clause) {
    QuoteFree(c.namespace) && c.names != [] && forall i :: 0 <= i < |c.names| ==> QuoteFree(c.names[i])
  }

  ghost predicate ReadableClause(c: Clause) {
    QuoteFreeParts(c) && QuoteFree(c.uri)
  }

  lemma {:induction false} SplitQuoteFree(a: string)
    requires QuoteFree(a)
    ensures Split(a) == [a]
  {
    if a != "" {
      assert a[0] in a && QuoteFree(a[1..]);
      SplitQuoteFree(a[1..]);
      assert [a[0]] + a[1..] == a;
    }
  }

  /** A quote ends one list of pieces and begins the next. */
  lemma {:induction false} SplitAnywhere(a: string, b: string)
    ensures Split(a + "'" + b) == Split(a) + Split(b)
  {
    var s := a + "'" + b;
    if a == "" {
      assert s[0] == '\'' && s[1..] == b;
    } else {
      assert s[0] == a[0] && s[1..] == a[1..] + "'" + b;
      SplitAnywhere(a[1..], b);
    }
  }

  lemma SplitAtQuote(a: string, b: string)
    requires QuoteFree(a)
    ensures Split(a + "'" + b) == [a] + Split(b)
  {
    SplitAnywhere(a, b);
    SplitQuoteFree(a);
  }

  lemma {:induction false} DecimalQuoteFree(n: nat)
    ensures QuoteFree(Decimal(n))
  {
    if n >= 10 {
      DecimalQuoteFree(n / 10);
      DecimalQuoteFree(n % 10);
    }
  }

  /** The pieces of a list of names that follows the separator `sep`, and then of " for " and `tail`. */
  function NamePieces(sep: string, names: seq<string>, tail: seq<string>): seq<string>
    decreases |names|
  {
    if names == [] then [" for "] + tail else [sep, names[0]] + NamePieces(", ", names[1..], tail)
  }

  lemma SplitOneName(sep: string, name: string, more: string)
    requires QuoteFree(sep) && QuoteFree(name)
    ensures Split(sep + (" '" + name + "'") + more) == [sep + " ", name] + Split(more)
  {
    assert sep + (" '" + name + "'") + more == (sep + " ") + "'" + (name + "'" + more);
    SplitAtQuote(name, more);
    SplitAtQuote(sep + " ", name + "'" + more);
  }

  lemma SplitUri(uri: string, rest: string)
    ensures Split(" for '" + uri + "'" + rest) == [" for "] + (Split(uri) + Split(rest))
  {
    assert " for '" + uri + "'" + rest == " for " + "'" + (uri + "'" + rest);
    SplitAnywhere(uri, rest);
    SplitAtQuote(" for ", uri + "'" + rest);
  }

  lemma LastNamePieces(sep: string, names: seq<string>, tail: seq<string>)
    requires |names| == 1
    ensures NamePieces(sep, names, tail) == [sep, names[0]] + ([" for "] + tail)
  {
    assert names[1..] == [];
    assert [" for "] + tail == NamePieces(", ", [], tail);
  }

  lemma MoreNames(sep: string, names: seq<string>, tail: string)
    requires |names| > 1
    ensures sep + NamesText(names) + tail == sep + (" '" + names[0] + "'") + ("," + NamesText(names[1..]) + tail)
  {
    assert "'," == "'" + ",";
    Regroup(sep, " '", names[0], "'", ",", NamesText(names[1..]), tail);
  }

  lemma Regroup(a: string, b: string, c: string, d: string, e: string, f: string, g: string)
    ensures a + (b + c + (d + e) + f) + g == a + (b + c + d) + (e + f + g)
  {
    assert b + c + (d + e) + f == (b + c + d) + (e + f);
    Associate(a, b + c + d, e + f, g);
    assert (a + (b + c + d)) + (e + f) + g == (a + (b + c + d)) + ((e + f) + g);
  }

  lemma {:induction false} SplitNames(sep: string, names: seq<string>, uri: string, rest: string)
    requires names != [] && QuoteFree(sep)
    requires forall i :: 0 <= i < |names| ==> QuoteFree(names[i])
    ensures Split(sep + NamesText(names) + (" for '" + uri + "'" + rest))
         == NamePieces(sep + " ", names, Split(uri) + Split(rest))
    decreases |names|
  {
    var tail := " for '" + uri + "'" + rest;
    if |names| == 1 {
      SplitOneName(sep, names[0], tail);
      SplitUri(uri, rest);
      LastNamePieces(sep + " ", names, Split(uri) + Split(rest));
    } else {
      SplitOneName(sep, names[0], "," + NamesText(names[1..]) + tail);
      SplitNames(",", names[1..], uri, rest);
      MoreNames(sep, names, tail);
      assert "," + " " == ", ";
    }
  }

  lemma {:induction false} ReadNamePieces(sep: string, names: seq<string>, tail: seq<string>)
    requires sep != " for " && tail != []
    ensures ReadNames(NamePieces(sep, names, tail)) == (names, tail)
    decreases |names|
  {
    var pieces := NamePieces(sep, names, tail);
    if names == [] {
      assert pieces[1..] == tail;
    } else {
      assert pieces[2..] == NamePieces(", ", names[1..], tail);
      ReadNamePieces(", ", names[1..], tail);
      assert pieces[0] == sep && [pieces[1]] + names[1..] == names;
    }
  }

  lemma SplitClause(lead: string, index: nat, c: Clause, rest: string)
    requires QuoteFree(lead) && QuoteFreeParts(c)
    ensures Split(lead + ClauseText(index, c) + rest)
         == [lead + " (" + Decimal(index) + ") ", c.namespace]
            + NamePieces(": ", c.names, Split(c.uri) + Split("." + rest))
  {
    var first := lead + " (" + Decimal(index) + ") ";
    var second := ":" + NamesText(c.names) + (" for '" + c.uri + "'" + ("." + rest));
    DecimalQuoteFree(index);
    ClauseTextParts(lead, index, c, rest);
    SplitAtQuote(c.namespace, second);
    SplitAtQuote(first, c.namespace + "'" + second);
    SplitNames(":", c.names, c.uri, "." + rest);
    assert ":" + " " == ": ";
  }

  lemma ClauseTextParts(lead: string, index: nat, c: Clause, rest: string)
    ensures lead + ClauseText(index, c) + rest
         == (lead + " (" + Decimal(index) + ") ") + "'"
            + (c.namespace + "'" + (":" + NamesText(c.names) + (" for '" + c.uri + "'" + ("." + rest))))
  {
    var names := NamesText(c.names);
    var text := c.namespace + "':" + names + " for '" + c.uri + "'.";
    assert ClauseText(index, c) == (" (" + Decimal(index) + ") ") + "'" + text;
    TextParts(c.namespace, names, c.uri, rest);
    assert lead + ((" (" + Decimal(index) + ") ") + "'" + text) + rest
        == (lead + " (" + Decimal(index) + ") ") + "'" + (text + rest);
  }

  lemma TextParts(namespace: string, names: string, uri: string, rest: string)
    ensures namespace + "':" + names + " for '" + uri + "'." + rest
         == namespace + "'" + (":" + names + (" for '" + uri + "'" + ("." + rest)))
  {
    assert "':" == "'" + ":" && "'." == "'" + ".";
  }

  /** Reading what was written: the clauses come back, whatever text without quotes stands before them. */
  lemma {:induction false} ReadBack(lead: string, index: nat, clauses: seq<Clause>)
    requires QuoteFree(lead) && forall i :: 0 <= i < |clauses| ==> ReadableClause(clauses[i])
    ensures ReadStatement(lead + ClausesText(index, clauses)) == clauses
    decreases |clauses|
  {
    if clauses == [] {
      assert lead + "" == lead;
      SplitQuoteFree(lead);
    } else {
      var c := clauses[0];
      var rest := ClausesText(index + 1, clauses[1..]);
      assert lead + ClausesText(index, clauses) == lead + ClauseText(index, c) + rest;
      SplitClause(lead, index, c, rest);
      SplitQuoteFree(c.uri);
      ReadBack(".", index + 1, clauses[1..]);
      ReadFirst(lead + " (" + Decimal(index) + ") ", c, ": ", Split("." + rest));
    }
  }

  lemma ReadFirst(first: string, c: Clause, sep: string, rest: seq<string>)
    requires sep != " for "
    ensures ReadClauses([first, c.namespace] + NamePieces(sep, c.names, [c.uri] + rest)) == [c] + ReadClauses(rest)
  {
    var pieces := [first, c.namespace] + NamePieces(sep, c.names, [c.uri] + rest);
    assert pieces[2..] == NamePieces(sep, c.names, [c.uri] + rest);
    ReadNamePieces(sep, c.names, [c.uri] + rest);
    assert ([c.uri] + rest)[1..] == rest;
  }

  /** A clause of abilities that a recap can have. */
  ghost predicate Able(c: Clause) {
    c.names != [] && forall i :: 0 <= i < |c.names| ==> Ability(c.namespace, c.names[i]).Valid()
  }

  lemma AbleIsPlain(c: Clause)
    requires Able(c)
    ensures QuoteFreeParts(c) && Spaceless(c)
  {
    assert Ability(c.namespace, c.names[0]).Valid();
    forall i | 0 <= i < |c.names| ensures QuoteFree(c.names[i]) && ' ' !in c.names[i] {
      assert Ability(c.namespace, c.names[i]).Valid();
    }
  }

  /** The clauses of a recap with valid abilities have names, and no quotes but in their URIs. */
  lemma ClauseOfGrants(grants: set<Grant>, i: nat) returns (g: Grant)
    requires AllValid(grants) && i < |ClausesOf(grants)|
    ensures Able(ClausesOf(grants)[i]) && QuoteFreeParts(ClausesOf(grants)[i]) && Spaceless(ClausesOf(grants)[i])
    ensures g in grants && g.0 == ClausesOf(grants)[i].uri
  {
    ClausesOfCanonical(grants);
    var c := ClausesOf(grants)[i];
    assert NamesRight(grants, c);
    assert PairsOf(ClausesOf(grants))[i] in Elements(PairsOf(ClausesOf(grants)));
    g :| g in grants && (g.0, g.1.namespace) == (c.uri, c.namespace);
    assert g.1.name in Names(grants, c.uri, c.namespace);
    forall j | 0 <= j < |c.names| ensures Ability(c.namespace, c.names[j]).Valid() {
      assert c.names[j] in Elements(c.names);
      var h :| h in grants && h.0 == c.uri && h.1.namespace == c.namespace && h.1.name == c.names[j];
      assert h.1 == Ability(c.namespace, c.names[j]);
    }
    AbleIsPlain(c);
  }

  ghost predicate AllValid(grants: set<Grant>) {
    forall g :: g in grants ==> g.1.Valid()
  }

  /** No part of an ability has a space. */
  ghost predicate Spaceless(c: Clause) {
    ' ' !in c.namespace && forall i :: 0 <= i < |c.names| ==> ' ' !in c.names[i]
  }

  lemma ReadableGrants(grants: set<Grant>, i: nat)
    requires Readable(grants) && i < |ClausesOf(grants)|
    ensures ReadableClause(ClausesOf(grants)[i])
  {
    var g := ClauseOfGrants(grants, i);
  }

  lemma HeaderQuoteFree()
    ensures QuoteFree(HEADER)
  {
    assert QuoteFree("I further authorize the stated URI ");
    assert QuoteFree("to perform the following actions ");
    assert QuoteFree("on my behalf:");
  }

  /** The statement of a readable recap says exactly what the recap grants: the clauses can be read back from it. */
  lemma StatementReadsBack(grants: set<Grant>)
    requires Readable(grants)
    ensures ReadStatement(Statement(grants)) == ClausesOf(grants)
  {
    forall i | 0 <= i < |ClausesOf(grants)| ensures ReadableClause(ClausesOf(grants)[i]) {
      ReadableGrants(grants, i);
    }
    HeaderQuoteFree();
    ReadBack(HEADER, 1, ClausesOf(grants));
  }

  // ----- Ability strings -----

  /** `Ability::deserialize`: the pattern has one slash and no class contains it. */
  function ParseAbility(s: string): Option<Ability> {
    var i := SlashIn(s);
    if i == |s| then
      None
    else
      var a := Ability(s[..i], s[i + 1..]);
      if a.Valid() then Some(a) else None
  }

  function SlashIn(s: string): (i: nat)
    ensures i <= |s|
    ensures i < |s| ==> s[i] == '/'
  {
    if s == "" || s[0] == '/' then 0 else 1 + SlashIn(s[1..])
  }

  lemma {:induction false} SlashAfter(a: string, b: string)
    requires '/' !in a
    ensures SlashIn(a + "/" + b) == |a|
  {
    if a != "" {
      assert (a + "/" + b)[1..] == a[1..] + "/" + b;
      SlashAfter(a[1..], b);
    } else {
      assert a + "/" + b == "/" + b;
    }
  }

  /** Parsing accepts exactly the formatted valid abilities, and undoes the formatting. */
  lemma AbilityRoundTrip(s: string, a: Ability)
    ensures ParseAbility(s) == Some(a) <==> a.Valid() && s == a.namespace + "/" + a.name
  {
    var i := SlashIn(s);
    if i < |s| {
      assert s == s[..i] + "/" + s[i + 1..];
    }
    if a.Valid() && s == a.Format() {
      SlashAfter(a.namespace, a.name);
      assert s[..i] == a.namespace && s[i + 1..] == a.name;
    }
  }
}
