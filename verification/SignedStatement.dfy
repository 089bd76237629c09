/**
 What a signature over a statement fixes. A message is accepted when its statement ends with the statement of its
 recap (src/auth.rs:877-880), so whatever stands before that end is free. It still cannot hide a second recap, unless
 a URI begins one.
 */
module SignedStatement {
  import opened Ordering
  import opened Recap
  import opened Ambiguity

  /** `statement.ends_with(suffix)`. */
  predicate EndsWith(s: string, suffix: string) {
    |suffix| <= |s| && s[|s| - |suffix|..] == suffix
  }

  // ----- URIs in which a statement begins -----

  /** With the quote behind it, the URI has the beginning of a statement up to the first URI of that. */
  ghost predicate Begun(uri: string, before: string, c: Clause, after: string) {
    && Able(c) && StrictlySorted(StringLess, c.names)
    && uri + "'" == before + HEADER + OpeningText(1, c) + after
  }

  ghost predicate Begins(uri: string) {
    exists before, c, after :: Begun(uri, before, c, after)
  }

  /** The grants that a signed text tells apart. */
  ghost predicate Signable(grants: set<Grant>) {
    Separable(grants) && forall g :: g in grants ==> !Begins(g.0)
  }

  lemma FirstQuote(number: string, c: Clause, text: string)
    requires text == number + "'" + c.namespace + "':" + NamesText(c.names) + " for '"
    ensures |text| > |number| + 1 && text[|number|] == '\''
  {
  }

  lemma BegunHasQuote(uri: string, before: string, c: Clause, after: string)
    requires Begun(uri, before, c, after)
    ensures '\'' in uri
  {
    var number, opening := " (" + Decimal(1) + ") ", OpeningText(1, c);
    assert " (" + Decimal(1) + ") '" == number + "'";
    FirstQuote(number, c, opening);
    var s, at := uri + "'", |before + HEADER| + |number|;
    assert s[at] == opening[|number|] == '\'' && at < |s| - 1;
    assert s[at] == uri[at];
  }

  lemma QuoteFreeBeginsNothing(uri: string)
    requires QuoteFree(uri)
    ensures !Begins(uri)
  {
    if before, c, after :| Begun(uri, before, c, after) {
      BegunHasQuote(uri, before, c, after);
    }
  }

  /** Quotes are what it takes: URIs without any are told apart. */
  lemma ReadableIsSignable(grants: set<Grant>)
    requires Readable(grants)
    ensures Signable(grants)
  {
    forall g | g in grants ensures !SpellsClause(g.0) && !Begins(g.0) {
      QuoteFreeIsSeamFree(g.0);
      SeamFreeSpellsNothing(g.0);
      QuoteFreeBeginsNothing(g.0);
    }
  }

  // ----- Where a statement stands inside another one -----

  /** What cannot end a part of a statement before its first quote: it has an I and a space. */
  predicate IsLead(lead: string) {
    QuoteFree(lead) && 'I' in lead && ' ' in lead
  }

  predicate Unled(part: string) {
    'I' !in part || ' ' !in part
  }

  lemma NotEndOf(r: string, lead: string, part: string)
    requires IsLead(lead) && Unled(part)
    ensures r + lead != part
  {
    var i, j :| 0 <= i < |lead| && 0 <= j < |lead| && lead[i] == 'I' && lead[j] == ' ';
    assert (r + lead)[|r| + i] == 'I' && (r + lead)[|r| + j] == ' ';
  }

  /** A text that does not end before the first quote goes beyond it. */
  lemma PassQuote(r: string, lead: string, more: string, part: string, rest: string) returns (q: string)
    requires QuoteFree(lead) && QuoteFree(part) && r + lead != part
    requires r + (lead + "'" + more) == part + "'" + rest
    ensures r == part + "'" + q && q + (lead + "'" + more) == rest
  {
    assert r + (lead + "'" + more) == (r + lead) + "'" + more;
    PeelQuote(r + lead, more, part, rest);
    var both := r + lead;
    assert both[|part|] == '\'';
    assert forall i :: 0 <= i < |lead| ==> lead[i] in lead && both[|r| + i] == lead[i];
    assert |part| < |r|;
    q := r[|part| + 1..];
    assert r == both[..|r|] && part + "'" == both[..|part| + 1];
    assert r == part + "'" + q;
    assert (part + "'") + (q + (lead + "'" + more)) == (part + "'") + rest;
    Cancel(part + "'", q + (lead + "'" + more), rest);
  }

  lemma PassQuoted(r: string, lead: string, more: string, sep: string, part: string, rest: string)
      returns (q: string)
    requires IsLead(lead) && QuoteFree(sep) && QuoteFree(part) && ' ' !in part && r + lead != sep
    requires r + (lead + "'" + more) == sep + "'" + (part + "'" + rest)
    ensures r == sep + "'" + (part + "'" + q) && q + (lead + "'" + more) == rest
  {
    var p := PassQuote(r, lead, more, sep, part + "'" + rest);
    NotEndOf(p, lead, part);
    q := PassQuote(p, lead, more, part, rest);
  }

  lemma {:induction false} PassNames(r: string, lead: string, more: string, sep: string, names: seq<string>, z: string)
      returns (q: string)
    requires IsLead(lead) && names != [] && QuoteFree(sep) && 'I' !in sep
    requires forall i :: 0 <= i < |names| ==> QuoteFree(names[i]) && ' ' !in names[i]
    requires r + (lead + "'" + more) == sep + (NamesText(names) + (" for '" + z))
    ensures r == sep + (NamesText(names) + (" for '" + q)) && q + (lead + "'" + more) == z
    decreases |names|, 1
  {
    FirstName(names, z);
    SpaceQuote(sep, names[0] + "'" + RestText(names, z));
    NotEndOf(r, lead, sep + " ");
    var p := PassQuoted(r, lead, more, sep + " ", names[0], RestText(names, z));
    q := PassLast(p, lead, more, names, z);
    FirstName(names, q);
    SpaceQuote(sep, names[0] + "'" + RestText(names, q));
  }

  lemma {:induction false} PassLast(p: string, lead: string, more: string, names: seq<string>, z: string)
      returns (q: string)
    requires IsLead(lead) && names != []
    requires forall i :: 0 <= i < |names| ==> QuoteFree(names[i]) && ' ' !in names[i]
    requires p + (lead + "'" + more) == RestText(names, z)
    ensures p == RestText(names, q) && q + (lead + "'" + more) == z
    decreases |names|, 0
  {
    if |names| == 1 {
      assert " for '" + z == " for " + "'" + z;
      NotEndOf(p, lead, " for ");
      q := PassQuote(p, lead, more, " for ", z);
      assert " for '" + q == " for " + "'" + q;
    } else {
      q := PassNames(p, lead, more, ",", names[1..], z);
    }
  }

  /** A text that does not end in the number of a clause goes beyond the beginning of that clause. */
  lemma PassOpening(r: string, lead: string, more: string, first: string, index: nat, d: Clause, z: string)
      returns (q: string)
    requires IsLead(lead) && QuoteFree(first) && Able(d) && r + lead != first + (" (" + Decimal(index) + ") ")
    requires r + (lead + "'" + more) == first + (ClauseText(index, d) + z)
    ensures r == first + OpeningText(index, d) + q && q + (lead + "'" + more) == d.uri + "'." + z
  {
    AbleIsPlain(d);
    NumberParts(index, d, z);
    var number := " (" + Decimal(index) + ") ";
    var names := ":" + (NamesText(d.names) + (" for '" + (d.uri + "'." + z)));
    assert first + (number + "'" + (d.namespace + "'" + names)) == (first + number) + "'" + (d.namespace + "'" + names);
    var p := PassQuoted(r, lead, more, first + number, d.namespace, names);
    q := PassNames(p, lead, more, ":", d.names, d.uri + "'." + z);
    Reopened(r, first, number, d.namespace, NamesText(d.names), q, OpeningText(index, d));
  }

  lemma Reopened(r: string, first: string, number: string, namespace: string, names: string, q: string,
                 opening: string)
    requires r == (first + number) + "'" + (namespace + "'" + (":" + (names + (" for '" + q))))
    requires opening == number + "'" + namespace + "':" + names + " for '"
    ensures r == first + opening + q
  {
    Reopen(number, namespace, names, q);
    assert r == first + (number + "'" + (namespace + "'" + (":" + (names + (" for '" + q)))));
  }

  lemma HeaderText(c: Clause, x: string) returns (more: string)
    ensures HEADER + (ClauseText(1, c) + x) == (HEADER + " (1) ") + "'" + more
  {
    NumberParts(1, c, x);
    more := c.namespace + "'" + (":" + (NamesText(c.names) + (" for '" + (c.uri + "'." + x))));
    assert " (" + Decimal(1) + ") " == " (1) ";
    assert HEADER + (" (1) " + "'" + more) == (HEADER + " (1) ") + "'" + more;
  }

  lemma HeaderIsLead()
    ensures IsLead(HEADER + " (1) ") && QuoteFree(HEADER) && |HEADER| > 1
  {
    HeaderQuoteFree();
    assert HEADER[0] == 'I';
    var lead := HEADER + " (1) ";
    assert lead[0] == 'I' && lead[|lead| - 1] == ' ';
  }

  /** A statement that stands in a text from within a URI is begun by that URI. */
  lemma InUri(uri: string, index: nat, cs: seq<Clause>, q: string, c: Clause, x: string) returns (after: string)
    requires Able(c) && |q| <= |uri|
    requires uri + "'." + ClausesText(index, cs) == q + (HEADER + (ClauseText(1, c) + x))
    ensures uri + "'" == q + HEADER + OpeningText(1, c) + after && (after != "" || cs != [])
  {
    var y := ClausesText(index, cs);
    ClausesTail(index, cs);
    HeaderIsLead();
    var v := HeaderInUri(uri, y, q, HEADER, ClauseText(1, c) + x);
    after := ClausePassed(1, c, v, y, x);
    UriEnd(uri, q, HEADER, v, OpeningText(1, c), after);
    MoreBehind(v, y, OpeningText(1, c), after, c.uri, x);
  }

  lemma UriEnd(uri: string, q: string, header: string, v: string, opening: string, after: string)
    requires uri == q + header + v && v + "'" == opening + after
    ensures uri + "'" == q + header + opening + after
  {
    assert uri + "'" == (q + header) + (v + "'");
  }

  lemma MoreBehind(v: string, y: string, opening: string, after: string, uri: string, x: string)
    requires v + "'" == opening + after && v + "'" + ("." + y) == opening + uri + "'." + x
    ensures after != "" || y != ""
  {
    assert |v + "'" + ("." + y)| == |opening| + |after| + 1 + |y|;
  }

  /** The quote that ends a URI is not within a header. */
  lemma HeaderInUri(uri: string, y: string, q: string, header: string, text: string) returns (v: string)
    requires QuoteFree(header) && |q| <= |uri| && uri + "'." + y == q + (header + text)
    ensures uri == q + header + v && v + "'" + ("." + y) == text
  {
    var s := uri + "'." + y;
    assert s[|uri|] == '\'';
    assert forall i :: 0 <= i < |header| ==> header[i] in header && s[|q| + i] == header[i];
    assert |q + header| <= |uri|;
    v := uri[|q + header|..];
    assert s == (q + header) + text;
    assert uri == s[..|uri|] && q + header == s[..|q + header|];
    assert uri == q + header + v;
    assert (q + header) + (v + "'" + ("." + y)) == s;
    Cancel(q + header, v + "'" + ("." + y), text);
  }

  /** Where the statement of `c` and `x` stands in a text of clauses. */
  datatype Place = Place(i: nat, before: string, after: string)

  ghost predicate IsPlace(cs: seq<Clause>, c: Clause, at: Place) {
    && at.i < |cs| && cs[at.i].uri + "'" == at.before + HEADER + OpeningText(1, c) + at.after
    && (at.after != "" || at.i + 1 < |cs|)
  }

  lemma SomeClause(first: string, index: nat, cs: seq<Clause>, r: string, c: Clause, x: string)
    requires |first| <= |HEADER| && first + ClausesText(index, cs) == r + (HEADER + (ClauseText(1, c) + x))
    ensures cs != []
  {
    ClausesTail(1, [c]);
    OneClause(1, c);
    assert |r + (HEADER + (ClauseText(1, c) + x))| > |HEADER|;
    ClausesTail(index, cs);
  }

  /** It begins in a URI, unless it begins in front. */
  lemma {:induction false} Located(first: string, index: nat, cs: seq<Clause>, r: string, c: Clause, x: string)
      returns (at: Place)
    requires QuoteFree(first) && AllAble(cs) && Able(c)
    requires r + (HEADER + " (1) ") != first + (" (" + Decimal(index) + ") ") && |first| <= |HEADER|
    requires first + ClausesText(index, cs) == r + (HEADER + (ClauseText(1, c) + x))
    ensures IsPlace(cs, c, at)
    ensures |r| <= |first + OpeningText(index, cs[0]) + cs[0].uri| ==> at.i == 0
    decreases |cs|
  {
    SomeClause(first, index, cs, r, c, x);
    AbleParts(cs);
    var d, rest := cs[0], ClausesText(index + 1, cs[1..]);
    var q := PastOpening(first, index, d, rest, r, c, x);
    if |q| <= |d.uri| {
      var after := InUri(d.uri, index + 1, cs[1..], q, c, x);
      at := Place(0, q, after);
    } else {
      var later := BeyondUri(d.uri, rest, q, HEADER + (ClauseText(1, c) + x));
      assert |r| == |first + OpeningText(index, d)| + |q|;
      DotIsNoLead(later, index + 1);
      var found := Located(".", index + 1, cs[1..], later, c, x);
      at := found.(i := found.i + 1);
      PlaceLater(cs, c, found);
    }
  }

  lemma AbleParts(cs: seq<Clause>)
    requires AllAble(cs) && cs != []
    ensures Able(cs[0]) && AllAble(cs[1..])
  {
  }

  lemma PlaceLater(cs: seq<Clause>, c: Clause, at: Place)
    requires cs != [] && IsPlace(cs[1..], c, at)
    ensures IsPlace(cs, c, at.(i := at.i + 1))
  {
    assert cs[1..][at.i] == cs[at.i + 1];
  }

  lemma PastOpening(first: string, index: nat, d: Clause, z: string, r: string, c: Clause, x: string)
      returns (q: string)
    requires QuoteFree(first) && Able(d)
    requires r + (HEADER + " (1) ") != first + (" (" + Decimal(index) + ") ")
    requires first + (ClauseText(index, d) + z) == r + (HEADER + (ClauseText(1, c) + x))
    ensures r == first + OpeningText(index, d) + q && q + (HEADER + (ClauseText(1, c) + x)) == d.uri + "'." + z
  {
    HeaderIsLead();
    var more := HeaderText(c, x);
    q := PassOpening(r, HEADER + " (1) ", more, first, index, d, z);
  }

  lemma BeyondUri(uri: string, rest: string, q: string, text: string) returns (later: string)
    requires |q| > |uri| && uri + "'." + rest == q + text
    ensures later + text == "." + rest && q == uri + "'" + later
  {
    var s := q + text;
    later := q[|uri| + 1..];
    assert uri + "'" == s[..|uri| + 1] && q == s[..|q|];
    assert q == uri + "'" + later;
    assert (uri + "'") + ("." + rest) == (uri + "'") + (later + text);
    Cancel(uri + "'", "." + rest, later + text);
  }

  lemma {:induction false} DecimalPlain(n: nat)
    ensures 'I' !in Decimal(n)
  {
    if n >= 10 {
      DecimalPlain(n / 10);
      DecimalPlain(n % 10);
    }
  }

  lemma DotIsNoLead(r: string, index: nat)
    ensures r + (HEADER + " (1) ") != "." + (" (" + Decimal(index) + ") ")
    ensures QuoteFree(".") && |"."| <= |HEADER|
  {
    DecimalPlain(index);
    HeaderIsLead();
    NotEndOf(r, HEADER + " (1) ", "." + (" (" + Decimal(index) + ") "));
  }

  // ----- The theorem -----

  lemma PlaceBegins(grants: set<Grant>, c: Clause, at: Place) returns (g: Grant)
    requires AllValid(grants) && Able(c) && StrictlySorted(StringLess, c.names) && IsPlace(ClausesOf(grants), c, at)
    ensures g in grants && g.0 == ClausesOf(grants)[at.i].uri && Begun(g.0, at.before, c, at.after)
  {
    g := ClauseOfGrants(grants, at.i);
  }

  /** A statement that grants something stands inside another one only where a URI begins it. */
  lemma InsideBegins(r: string, a: set<Grant>, b: set<Grant>) returns (at: Place)
    requires AllValid(a) && AllValid(b) && ClausesOf(a) != [] && r != "" && Statement(b) == r + Statement(a)
    ensures IsPlace(ClausesOf(b), ClausesOf(a)[0], at)
    ensures |r| <= |HEADER + OpeningText(1, ClausesOf(b)[0]) + ClausesOf(b)[0].uri| ==> at.i == 0
    ensures Able(ClausesOf(a)[0]) && StrictlySorted(StringLess, ClausesOf(a)[0].names)
  {
    ClausesInOrder(a);
    ClausesInOrder(b);
    HeaderIsLead();
    NotBehind(r, HEADER + " (1) ", HEADER + (" (" + Decimal(1) + ") "));
    at := Located(HEADER, 1, ClausesOf(b), r, ClausesOf(a)[0], ClausesText(2, ClausesOf(a)[1..]));
  }

  lemma NotBehind(r: string, lead: string, same: string)
    requires r != "" && |same| == |lead|
    ensures r + lead != same
  {
    assert |r + lead| > |lead|;
  }

  /** Nor does the statement that grants nothing: the others end with a full stop. */
  lemma EmptyStatementAlone(r: string, a: set<Grant>, b: set<Grant>)
    requires ClausesOf(a) == [] && Statement(b) == r + Statement(a)
    ensures ClausesOf(b) == []
  {
    assert Statement(a) == HEADER + "" == HEADER;
    assert Statement(b)[|Statement(b)| - 1] == ':' by {
      assert HEADER[|HEADER| - 1] == ':';
    }
    if ClausesOf(b) != [] {
      EndsWithStop(1, ClausesOf(b));
    }
  }

  lemma {:induction false} EndsWithStop(index: nat, clauses: seq<Clause>)
    requires clauses != []
    ensures
      var text := ClausesText(index, clauses);
      text != "" && text[|text| - 1] == '.'
    decreases |clauses|
  {
    var text := ClauseText(index, clauses[0]);
    assert text[|text| - 1] == '.';
    if |clauses| == 1 {
      assert text + "" == text && ClausesText(index + 1, clauses[1..]) == "";
    } else {
      EndsWithStop(index + 1, clauses[1..]);
    }
  }

  lemma SuffixDecides(r: string, a: set<Grant>, b: set<Grant>)
    requires Signable(a) && Signable(b) && Statement(b) == r + Statement(a)
    ensures a == b
  {
    if ClausesOf(a) == [] {
      EmptyStatementAlone(r, a, b);
      SameClausesSameGrants(a, b);
    } else {
      if r != "" {
        var at := InsideBegins(r, a, b);
        var g := PlaceBegins(b, ClausesOf(a)[0], at);
      }
      assert "" + Statement(a) == Statement(a);
      StatementInjective(a, b);
    }
  }

  /** One signed text ends with the statement of at most one recap, so the signature fixes what is granted. */
  lemma SignedStatementDecides(signed: string, a: set<Grant>, b: set<Grant>)
    requires Signable(a) && Signable(b)
    requires EndsWith(signed, Statement(a)) && EndsWith(signed, Statement(b))
    ensures a == b
  {
    var p, q := |signed| - |Statement(a)|, |signed| - |Statement(b)|;
    if q <= p {
      SuffixOfSuffix(signed, q, p);
      SuffixDecides(signed[q..p], a, b);
    } else {
      SuffixOfSuffix(signed, p, q);
      SuffixDecides(signed[p..q], b, a);
    }
  }

  lemma SuffixOfSuffix(s: string, i: nat, j: nat)
    requires i <= j <= |s|
    ensures s[i..] == s[i..j] + s[j..]
  {
  }

  /**
   A URI in which a statement begins can hide it: for any text and any URI, the statement of one recap ends with the
   statement of another.
   */
  lemma BuriedStatement(text: string, uri: string)
    ensures
      var ability := Ability("n", "x");
      var inner: set<Grant> := {(uri, ability)};
      var outer: set<Grant> := {(text + HEADER + Opening("1") + uri, ability)};
      ability.Valid() && inner != outer && EndsWith(Statement(outer), Statement(inner))
  {
    var ability := Ability("n", "x");
    var buried := text + HEADER + Opening("1") + uri;
    var c, d := Clause(uri, "n", ["x"]), Clause(buried, "n", ["x"]);
    OneGrant(c);
    OneGrant(d);
    OneClause(1, c);
    OneClause(1, d);
    ShortClause(1, "1", uri);
    ShortClause(1, "1", buried);
    assert StatementText([c]) == HEADER + (Opening("1") + uri + "'.");
    assert StatementText([d]) == (HEADER + Opening("1") + text) + (HEADER + (Opening("1") + uri + "'.")) by {
      Buried(HEADER, Opening("1"), text, uri, "'.");
    }
    assert |buried| > |uri| && (uri, ability) !in {(buried, ability)};
  }

  lemma Buried(header: string, opening: string, text: string, uri: string, end: string)
    ensures header + (opening + (text + header + opening + uri) + end)
         == (header + opening + text) + (header + (opening + uri + end))
  {
  }

  // ----- Which recaps hide another statement -----

  /** The statement of `other` stands in that of `grants`, behind `start`. */
  ghost predicate EndsInside(grants: set<Grant>, other: set<Grant>, start: string) {
    AllValid(other) && start != "" && Statement(grants) == start + Statement(other)
  }

  ghost predicate Hides(clauses: seq<Clause>, c: Clause, at: Place) {
    Able(c) && StrictlySorted(StringLess, c.names) && IsPlace(clauses, c, at)
  }

  /**
   Exactly the recaps whose statement ends with another statement: those with a URI that begins one, if a URI for its
   clause follows, in the same URI or in the clauses behind it.
   */
  lemma HidesExactly(grants: set<Grant>)
    requires AllValid(grants)
    ensures (exists other, start :: EndsInside(grants, other, start)) <==>
      exists c, at :: Hides(ClausesOf(grants), c, at)
  {
    if other, start :| EndsInside(grants, other, start) {
      OtherGrants(grants, other, start);
      var at := InsideBegins(start, other, grants);
      assert Hides(ClausesOf(grants), ClausesOf(other)[0], at);
    }
    if c, at :| Hides(ClausesOf(grants), c, at) {
      var other, start := Uncover(grants, c, at);
    }
  }

  lemma OtherGrants(grants: set<Grant>, other: set<Grant>, start: string)
    requires EndsInside(grants, other, start)
    ensures ClausesOf(other) != []
  {
    assert |Statement(grants)| > |Statement(other)|;
    if ClausesOf(other) == [] {
      EmptyStatementAlone(start, other, grants);
    }
  }

  /** The statement behind a place: one clause, with all that follows in its URI. */
  lemma Uncover(grants: set<Grant>, c: Clause, at: Place) returns (other: set<Grant>, start: string)
    requires AllValid(grants) && Hides(ClausesOf(grants), c, at)
    ensures EndsInside(grants, other, start)
    ensures at.i == 0 ==> |start| <= |HEADER + OpeningText(1, ClausesOf(grants)[0]) + ClausesOf(grants)[0].uri|
  {
    var uri;
    uri, start := UncoverText(ClausesOf(grants), c, at);
    var one := c.(uri := uri);
    OneClause(1, one);
    assert InOrder([one]) && AllAble([one]);
    OrderedClauses([one]);
    AbleIsValid([one]);
    other := Named([one]);
  }

  lemma UncoverText(cs: seq<Clause>, c: Clause, at: Place) returns (uri: string, start: string)
    requires IsPlace(cs, c, at)
    ensures HEADER + ClausesText(1, cs) == start + (HEADER + ClauseText(1, c.(uri := uri))) && start != ""
    ensures at.i == 0 ==> |start| <= |HEADER + OpeningText(1, cs[0]) + cs[0].uri|
  {
    var i := at.i;
    HeaderIsLead();
    uri, start := TextBehind(HEADER, cs, i, at.before, OpeningText(1, c), at.after);
    assert OpeningText(1, c.(uri := uri)) == OpeningText(1, c);
  }

  /** From a header in the URI of a clause, the text is what begins there, one URI, and the end of a clause. */
  lemma TextBehind(header: string, cs: seq<Clause>, i: nat, before: string, begun: string, after: string)
      returns (uri: string, start: string)
    requires i < |cs| && cs[i].uri + "'" == before + header + begun + after && (after != "" || i + 1 < |cs|)
    requires header != ""
    ensures header + ClausesText(1, cs) == start + (header + (begun + uri + "'.")) && start != ""
    ensures i == 0 ==> |start| <= |header + OpeningText(1, cs[0]) + cs[0].uri|
  {
    var front, opening := ClausesText(1, cs[..i]), OpeningText(i + 1, cs[i]);
    TextAround(1, cs, i);
    AfterEnds(cs[i].uri, before + header + begun, after);
    uri := HiddenUri(i + 2, cs[i + 1..], after);
    start := Unfold(header, front, opening, cs[i].uri, ClausesText(i + 2, cs[i + 1..]), before, begun, after, uri);
  }

  lemma AfterEnds(uri: string, begun: string, after: string)
    requires uri + "'" == begun + after
    ensures after != "" ==> after[|after| - 1] == '\''
  {
    assert after != "" ==> (begun + after)[|begun| + |after| - 1] == after[|after| - 1];
  }

  /** What follows the beginning of a statement in a URI, up to the end of the text. */
  lemma HiddenUri(index: nat, cs: seq<Clause>, after: string) returns (uri: string)
    requires after != "" ==> after[|after| - 1] == '\''
    requires after != "" || cs != []
    ensures after + ("." + ClausesText(index, cs)) == uri + "'."
  {
    if cs == [] {
      uri := after[..|after| - 1];
      assert after == uri + "'" && "'." == "'" + ".";
    } else {
      var all := AllInFirst(index, cs);
      var opening := OpeningText(index, cs[0].(uri := all));
      uri := after + ("." + opening + all);
      assert after + ("." + (opening + all + "'.")) == after + ("." + opening + all) + "'.";
    }
  }

  lemma Unfold(header: string, front: string, opening: string, uri: string, later: string, before: string,
               begun: string, after: string, rest: string) returns (start: string)
    requires uri + "'" == before + header + begun + after && after + ("." + later) == rest + "'." && header != ""
    ensures header + (front + (opening + uri + "'." + later)) == start + (header + (begun + rest + "'."))
    ensures start != "" && (front == "" ==> |start| <= |header + opening + uri|)
  {
    start := header + front + opening + before;
    assert |uri| + 1 == |before + header + begun + after|;
    assert "'." == "'" + ".";
    assert header + (front + (opening + uri + "'." + later)) == header + front + opening + (uri + "'") + ("." + later);
    assert header + front + opening + (before + header + begun + after) + ("." + later)
        == (header + front + opening + before) + (header + (begun + (after + ("." + later))));
    assert begun + (rest + "'.") == begun + rest + "'.";
  }

  /** One recap has the URI in its first clause, and from within this URI its statement is that of another recap. */
  ghost predicate HiddenIn(uri: string, grants: set<Grant>, other: set<Grant>, start: string) {
    && AllValid(grants) && ClausesOf(grants) != [] && ClausesOf(grants)[0].uri == uri
    && EndsInside(grants, other, start) && |start| <= |HEADER + OpeningText(1, ClausesOf(grants)[0]) + uri|
  }

  /** Beginning a statement is exactly what lets a URI hide one. */
  lemma BeginsExactly(uri: string)
    ensures Begins(uri) <==> exists grants, other, start :: HiddenIn(uri, grants, other, start)
  {
    if grants, other, start :| HiddenIn(uri, grants, other, start) {
      OtherGrants(grants, other, start);
      var at := InsideBegins(start, other, grants);
      var g := PlaceBegins(grants, ClausesOf(other)[0], at);
    }
    if before, c, after :| Begun(uri, before, c, after) {
      var grants := TwoSmall(uri);
      var other, start := Uncover(grants, c, Place(0, before, after));
      assert HiddenIn(uri, grants, other, start);
    }
  }

  lemma TwoSmall(uri: string) returns (grants: set<Grant>)
    ensures AllValid(grants) && ClausesOf(grants) == [Small(uri), Small(uri + "a")]
  {
    LongerIsGreater(uri, uri + "a");
    AbleSmall(uri);
    AbleSmall(uri + "a");
    var two := [Small(uri), Small(uri + "a")];
    assert PairsOf(two) == [(uri, "n"), (uri + "a", "n")];
    OrderedClauses(two);
    AbleIsValid(two);
    grants := Named(two);
  }
}
