/**
 When the text of a statement can be read in two ways (src/siwx/erc5573.rs:105-136): URIs may contain quotes, and a
 statement does not escape them.
 */
module Ambiguity {
  import opened Ordering
  import opened Recap

  // ----- Where a URI ends -----

  /** With the quote behind it, the URI has the end of a clause and then a second clause or later one up to its URI. */
  ghost predicate Spelled(uri: string, before: string, index: nat, c: Clause, after: string) {
    index >= 2 && Able(c) && uri + "'" == before + "'." + OpeningText(index, c) + after
  }

  ghost predicate SpellsClause(uri: string) {
    exists before, index: nat, c, after :: Spelled(uri, before, index, c, after)
  }

  /** The grants that a statement tells apart: valid abilities, and URIs that spell no clause. */
  ghost predicate Separable(grants: set<Grant>) {
    forall g :: g in grants ==> g.1.Valid() && !SpellsClause(g.0)
  }

  ghost predicate SeparableClause(c: Clause) {
    Able(c) && !SpellsClause(c.uri)
  }

  predicate OccursAt(s: string, part: string, i: nat) {
    i + |part| <= |s| && s[i..i + |part|] == part
  }

  predicate Contains(s: string, part: string) {
    exists i :: 0 <= i <= |s| && OccursAt(s, part, i)
  }

  /** What stands between the URI of a clause and the number of the next one. */
  const SEAM := "'. ("

  predicate SeamFree(uri: string) {
    !Contains(uri, SEAM)
  }

  lemma QuoteFreeIsSeamFree(uri: string)
    requires QuoteFree(uri)
    ensures SeamFree(uri)
  {
    forall i | 0 <= i <= |uri| ensures !OccursAt(uri, SEAM, i) {
      if i + |SEAM| <= |uri| {
        assert uri[i..i + |SEAM|][0] == uri[i] && uri[i] in uri;
      }
    }
  }

  lemma SeamFreeSpellsNothing(uri: string)
    requires SeamFree(uri)
    ensures !SpellsClause(uri)
  {
    forall before: string, index: nat, c: Clause, after: string ensures !Spelled(uri, before, index, c, after) {
      if Spelled(uri, before, index, c, after) {
        var opening := OpeningText(index, c);
        var s := uri + "'";
        assert opening[0] == ' ' && opening[1] == '(' && |opening| > 3;
        assert s == before + "'." + opening + after;
        assert s[|before|] == '\'' && s[|before| + 1] == '.' && s[|before| + 2] == ' ' && s[|before| + 3] == '(';
        assert uri[|before|..|before| + |SEAM|] == SEAM;
        assert OccursAt(uri, SEAM, |before|);
      }
    }
  }

  /** The end of a statement, or the number of a clause. */
  predicate IsTail(s: string) {
    s == "" || " (" <= s
  }

  lemma Cancel(a: string, x: string, y: string)
    requires a + x == a + y
    ensures x == y
  {
    assert (a + x)[|a|..] == x && (a + y)[|a|..] == y;
  }

  lemma CutAtQuote(a: string, b: string, x: string, y: string)
    requires QuoteFree(a) && QuoteFree(b) && a + "'" + x == b + "'" + y
    ensures a == b && x == y
  {
    var s := a + "'" + x;
    assert s[|a|] == '\'' && s[|b|] == '\'';
    assert forall i :: 0 <= i < |a| ==> s[i] == a[i] && a[i] in a;
    assert forall i :: 0 <= i < |b| ==> s[i] == b[i] && b[i] in b;
    assert |a| == |b|;
    assert s[..|a|] == a && s[..|b|] == b;
    Cancel(a + "'", x, y);
  }

  /** What follows the first name of a list, up to the URI and `x`. */
  function RestText(names: seq<string>, x: string): string
    requires names != []
  {
    if |names| == 1 then " for '" + x else "," + (NamesText(names[1..]) + (" for '" + x))
  }

  lemma FirstName(names: seq<string>, x: string)
    requires names != []
    ensures NamesText(names) + (" for '" + x) == " '" + (names[0] + "'" + RestText(names, x))
  {
    var tail := " for '" + x;
    if |names| > 1 {
      assert "'," == "'" + ",";
      Regrouped(" '", names[0], "'", ",", NamesText(names[1..]), tail);
    }
  }

  lemma Regrouped(a: string, b: string, c: string, d: string, e: string, f: string)
    ensures a + b + (c + d) + e + f == a + (b + c + (d + (e + f)))
  {
  }

  lemma RestCut(ns: seq<string>, ms: seq<string>, x: string, y: string)
    requires ns != [] && ms != [] && RestText(ns, x) == RestText(ms, y)
    ensures |ns| == 1 <==> |ms| == 1
    ensures |ns| == 1 ==> x == y
    ensures |ns| > 1 ==> NamesText(ns[1..]) + (" for '" + x) == NamesText(ms[1..]) + (" for '" + y)
  {
    assert RestText(ns, x)[0] == if |ns| == 1 then ' ' else ',';
    assert RestText(ms, y)[0] == if |ms| == 1 then ' ' else ',';
    if |ns| == 1 {
      Cancel(" for '", x, y);
    } else {
      Cancel(",", NamesText(ns[1..]) + (" for '" + x), NamesText(ms[1..]) + (" for '" + y));
    }
  }

  lemma FirstNameCut(ns: seq<string>, ms: seq<string>, x: string, y: string)
    requires ns != [] && ms != [] && QuoteFree(ns[0]) && QuoteFree(ms[0])
    requires NamesText(ns) + (" for '" + x) == NamesText(ms) + (" for '" + y)
    ensures ns[0] == ms[0] && RestText(ns, x) == RestText(ms, y)
  {
    FirstName(ns, x);
    FirstName(ms, y);
    Cancel(" '", ns[0] + "'" + RestText(ns, x), ms[0] + "'" + RestText(ms, y));
    CutAtQuote(ns[0], ms[0], RestText(ns, x), RestText(ms, y));
  }

  /** A list of names ends at " for ", whatever follows. */
  lemma {:induction false} NamesCut(ns: seq<string>, ms: seq<string>, x: string, y: string)
    requires ns != [] && (forall i :: 0 <= i < |ns| ==> QuoteFree(ns[i]))
    requires ms != [] && (forall i :: 0 <= i < |ms| ==> QuoteFree(ms[i]))
    requires NamesText(ns) + (" for '" + x) == NamesText(ms) + (" for '" + y)
    ensures ns == ms && x == y
    decreases |ns|
  {
    FirstNameCut(ns, ms, x, y);
    RestCut(ns, ms, x, y);
    if |ns| > 1 {
      NamesCut(ns[1..], ms[1..], x, y);
    }
    assert ns == [ns[0]] + ns[1..] && ms == [ms[0]] + ms[1..];
  }

  /** A text that ends at a quote ends at the first quote of another spelling of it, or goes beyond that. */
  lemma PeelQuote(v: string, z: string, a: string, b: string)
    requires QuoteFree(a) && v + "'" + z == a + "'" + b
    ensures (v == a && z == b) || (a + "'" <= v && v[|a| + 1..] + "'" + z == b)
  {
    var s := v + "'" + z;
    assert s[|v|] == '\'' && s[|a|] == '\'';
    assert forall i :: 0 <= i < |a| ==> s[i] == a[i] && a[i] in a;
    assert |a| <= |v|;
    if |v| == |a| {
      assert v == s[..|a|] == a;
      Cancel(a + "'", z, b);
    } else {
      assert v == s[..|v|] && a + "'" == s[..|a| + 1];
      assert v == (a + "'") + v[|a| + 1..];
      assert (a + "'") + (v[|a| + 1..] + "'" + z) == (a + "'") + b;
      Cancel(a + "'", v[|a| + 1..] + "'" + z, b);
    }
  }

  /** No clause ends in a quoted part without spaces. */
  lemma NoEndInside(part: string, y: string, rest: string)
    requires IsTail(y) && ' ' !in part
    ensures "." + y != part + "'" + rest
  {
    var s, t := part + "'" + rest, "." + y;
    assert t[0] == '.' && s[0] == if part == "" then '\'' else part[0];
    assert part != "" ==> s[1] == if |part| > 1 then part[1] else '\'';
    assert y != "" ==> t[1] == ' ';
  }

  /** A text that ends a clause goes beyond a quoted part without spaces, unless a full stop follows that. */
  lemma QuotedPassed(v: string, y: string, sep: string, part: string, rest: string) returns (last: string)
    requires QuoteFree(sep) && QuoteFree(part) && ' ' !in part && IsTail(y) && rest != "" && rest[0] != '.'
    requires v + "'" + ("." + y) == sep + "'" + (part + "'" + rest)
    ensures v == sep + "'" + (part + "'" + last) && last + "'" + ("." + y) == rest
  {
    PeelQuote(v, "." + y, sep, part + "'" + rest);
    NoEndInside(part, y, rest);
    var inner := v[|sep| + 1..];
    assert v == sep + "'" + inner;
    PeelQuote(inner, "." + y, part, rest);
    assert ("." + y)[0] == '.';
    last := inner[|part| + 1..];
    assert inner == part + "'" + last;
  }

  /** No clause ends in a list of names, or before the quote behind it. */
  lemma {:induction false} NamesPassed(sep: string, names: seq<string>, v: string, y: string, rest: string)
      returns (after: string)
    requires QuoteFree(sep) && IsTail(y) && names != []
    requires forall i :: 0 <= i < |names| ==> QuoteFree(names[i]) && ' ' !in names[i]
    requires v + "'" + ("." + y) == sep + (NamesText(names) + (" for '" + rest))
    ensures v + "'" == sep + (NamesText(names) + (" for '" + after))
    decreases |names|
  {
    var more := RestText(names, rest);
    FirstName(names, rest);
    assert more[0] == if |names| == 1 then ' ' else ',';
    SpaceQuote(sep, names[0] + "'" + more);
    var last := QuotedPassed(v, y, sep + " ", names[0], more);
    after := LastPassed(names, last, y, rest);
    FirstName(names, after);
    SpaceQuote(sep, names[0] + "'" + RestText(names, after));
    QuoteLast(v, sep + " ", names[0], last);
  }

  lemma SpaceQuote(sep: string, rest: string)
    ensures sep + (" '" + rest) == (sep + " ") + "'" + rest
  {
    assert " '" == " " + "'";
  }

  lemma QuoteLast(v: string, sep: string, part: string, last: string)
    requires v == sep + "'" + (part + "'" + last)
    ensures v + "'" == sep + "'" + (part + "'" + (last + "'"))
  {
  }

  /** The same behind the first name. */
  lemma {:induction false} LastPassed(names: seq<string>, last: string, y: string, rest: string)
      returns (after: string)
    requires IsTail(y) && names != []
    requires forall i :: 0 <= i < |names| ==> QuoteFree(names[i]) && ' ' !in names[i]
    requires last + "'" + ("." + y) == RestText(names, rest)
    ensures last + "'" == RestText(names, after)
    decreases |names|, 0
  {
    if |names| == 1 {
      assert " for '" + rest == " for " + "'" + rest;
      PeelQuote(last, "." + y, " for ", rest);
      if last == " for " {
        after := "";
      } else {
        after := last[|" for '"|..] + "'";
        assert last == " for '" + last[|" for '"|..];
      }
    } else {
      after := NamesPassed(",", names[1..], last, y, rest);
    }
  }

  lemma NumberParts(index: nat, c: Clause, x: string)
    ensures QuoteFree(" (" + Decimal(index) + ") ")
    ensures ClauseText(index, c) + x
         == (" (" + Decimal(index) + ") ") + "'"
            + (c.namespace + "'" + (":" + (NamesText(c.names) + (" for '" + (c.uri + "'." + x)))))
  {
    DecimalQuoteFree(index);
    ClauseParts(index, c, x);
    assert " (" + Decimal(index) + ") '" == (" (" + Decimal(index) + ") ") + "'";
  }

  lemma ClausePassed(index: nat, c: Clause, v: string, y: string, x: string) returns (after: string)
    requires Able(c) && IsTail(y) && v + "'" + ("." + y) == ClauseText(index, c) + x
    ensures v + "'" == OpeningText(index, c) + after
  {
    AbleIsPlain(c);
    var number, rest := " (" + Decimal(index) + ") ", c.uri + "'." + x;
    var names := ":" + (NamesText(c.names) + (" for '" + rest));
    NumberParts(index, c, x);
    assert names[0] == ':';
    var last := QuotedPassed(v, y, number, c.namespace, names);
    after := NamesPassed(":", c.names, last, y, rest);
    QuoteLast(v, number, c.namespace, last);
    Reopen(number, c.namespace, NamesText(c.names), after);
  }

  lemma Reopen(number: string, namespace: string, names: string, after: string)
    ensures number + "'" + (namespace + "'" + (":" + (names + (" for '" + after))))
         == number + "'" + namespace + "':" + names + " for '" + after
  {
    assert "':" == "'" + ":";
  }

  ghost predicate AllAble(clauses: seq<Clause>) {
    forall i :: 0 <= i < |clauses| ==> Able(clauses[i])
  }

  ghost predicate AllSeparable(clauses: seq<Clause>) {
    forall i :: 0 <= i < |clauses| ==> SeparableClause(clauses[i])
  }

  /** Of two URIs with which a text goes on, the longer one has the shorter one and the end of its clause in it. */
  lemma LongerUri(u: string, v: string, x: string, y: string) returns (inner: string)
    requires u + "'." + x == v + "'." + y && |u| < |v|
    ensures v == u + "'." + inner && x == inner + "'" + ("." + y)
  {
    var s := u + "'." + x;
    assert |s| == |u| + 2 + |x| == |v| + 2 + |y|;
    assert s[|u| + 1] == '.' && s[|v|] == '\'';
    inner := v[|u| + 2..];
    assert v == s[..|v|] && u + "'." == s[..|u| + 2];
    assert v == u + "'." + inner;
    assert (u + "'.") + x == (u + "'.") + (inner + "'" + ("." + y));
    Cancel(u + "'.", x, inner + "'" + ("." + y));
  }

  /** That is, it spells a clause. */
  lemma ShorterUri(u: string, v: string, index: nat, cs: seq<Clause>, ds: seq<Clause>)
    requires index >= 2 && AllAble(cs) && |u| < |v|
    requires u + "'." + ClausesText(index, cs) == v + "'." + ClausesText(index, ds)
    ensures SpellsClause(v)
  {
    var inner := LongerUri(u, v, ClausesText(index, cs), ClausesText(index, ds));
    ClausesTail(index, cs);
    ClausesTail(index, ds);
    var after := ClausePassed(index, cs[0], inner, ClausesText(index, ds), ClausesText(index + 1, cs[1..]));
    Append(u, inner, OpeningText(index, cs[0]), after);
    assert Spelled(v, u, index, cs[0], after);
  }

  lemma Append(u: string, inner: string, opening: string, after: string)
    requires inner + "'" == opening + after
    ensures u + "'." + inner + "'" == u + "'." + opening + after
  {
    assert u + "'." + inner + "'" == u + "'." + (inner + "'");
  }

  /** Where a URI that spells no clause ends is decided. */
  lemma UriCut(u: string, v: string, index: nat, cs: seq<Clause>, ds: seq<Clause>)
    requires index >= 2 && AllAble(cs) && AllAble(ds) && !SpellsClause(u) && !SpellsClause(v)
    requires u + "'." + ClausesText(index, cs) == v + "'." + ClausesText(index, ds)
    ensures u == v && ClausesText(index, cs) == ClausesText(index, ds)
  {
    var x, y := ClausesText(index, cs), ClausesText(index, ds);
    if |u| < |v| {
      ShorterUri(u, v, index, cs, ds);
    } else if |v| < |u| {
      ShorterUri(v, u, index, ds, cs);
    } else {
      assert u == (u + "'." + x)[..|u|] && v == (v + "'." + y)[..|v|];
      Cancel(u + "'.", x, y);
    }
  }

  lemma ClauseParts(index: nat, c: Clause, x: string)
    ensures ClauseText(index, c) + x
         == (" (" + Decimal(index) + ") '")
            + (c.namespace + "'" + (":" + (NamesText(c.names) + (" for '" + (c.uri + "'." + x)))))
  {
    NestedParts(" (" + Decimal(index) + ") '", c.namespace, NamesText(c.names), c.uri, x);
  }

  lemma NestedParts(number: string, namespace: string, names: string, uri: string, x: string)
    ensures number + namespace + "':" + names + " for '" + uri + "'." + x
         == number + (namespace + "'" + (":" + (names + (" for '" + (uri + "'." + x)))))
  {
    assert "':" == "'" + ":";
    Nested(number, namespace, "'", ":", names, " for '", uri + "'." + x);
    assert " for '" + (uri + "'." + x) == " for '" + uri + "'." + x;
  }

  lemma Nested(a: string, b: string, c: string, d: string, e: string, f: string, g: string)
    ensures a + b + (c + d) + e + f + g == a + (b + c + (d + (e + (f + g))))
  {
  }

  /** Equal texts have equal parts up to the first URI. */
  lemma OpeningCut(index: nat, c: Clause, d: Clause, x: string, y: string)
    requires Able(c) && Able(d) && ClauseText(index, c) + x == ClauseText(index, d) + y
    ensures c.namespace == d.namespace && c.names == d.names && c.uri + "'." + x == d.uri + "'." + y
  {
    AbleIsPlain(c);
    AbleIsPlain(d);
    var cNames := NamesText(c.names) + (" for '" + (c.uri + "'." + x));
    var dNames := NamesText(d.names) + (" for '" + (d.uri + "'." + y));
    ClauseParts(index, c, x);
    ClauseParts(index, d, y);
    Cancel(" (" + Decimal(index) + ") '", c.namespace + "'" + (":" + cNames), d.namespace + "'" + (":" + dNames));
    CutAtQuote(c.namespace, d.namespace, ":" + cNames, ":" + dNames);
    Cancel(":", cNames, dNames);
    NamesCut(c.names, d.names, c.uri + "'." + x, d.uri + "'." + y);
  }

  lemma ClausesTail(index: nat, clauses: seq<Clause>)
    ensures IsTail(ClausesText(index, clauses)) && (ClausesText(index, clauses) == "" <==> clauses == [])
  {
    if clauses != [] {
      var text := ClauseText(index, clauses[0]);
      assert text[0] == ' ' && text[1] == '(';
    }
  }

  lemma FirstClauseCut(index: nat, c: Clause, cs: seq<Clause>, d: Clause, ds: seq<Clause>)
    requires index >= 1 && SeparableClause(c) && SeparableClause(d) && AllAble(cs) && AllAble(ds)
    requires ClauseText(index, c) + ClausesText(index + 1, cs) == ClauseText(index, d) + ClausesText(index + 1, ds)
    ensures c == d && ClausesText(index + 1, cs) == ClausesText(index + 1, ds)
  {
    OpeningCut(index, c, d, ClausesText(index + 1, cs), ClausesText(index + 1, ds));
    UriCut(c.uri, d.uri, index + 1, cs, ds);
  }

  lemma NoneOrSome(index: nat, cs: seq<Clause>, ds: seq<Clause>)
    requires ClausesText(index, cs) == ClausesText(index, ds)
    ensures cs == [] <==> ds == []
  {
    ClausesTail(index, cs);
    ClausesTail(index, ds);
  }

  lemma LaterSeparable(cs: seq<Clause>)
    requires AllSeparable(cs) && cs != []
    ensures SeparableClause(cs[0]) && AllSeparable(cs[1..]) && AllAble(cs[1..])
  {
    forall i | 0 <= i < |cs| - 1 ensures SeparableClause(cs[1..][i]) {
      assert SeparableClause(cs[i + 1]);
    }
  }

  lemma SameParts<T>(xs: seq<T>, ys: seq<T>)
    requires xs != [] && ys != [] && xs[0] == ys[0] && xs[1..] == ys[1..]
    ensures xs == ys
  {
    assert xs == [xs[0]] + xs[1..] && ys == [ys[0]] + ys[1..];
  }

  lemma {:induction false} ClausesCut(index: nat, cs: seq<Clause>, ds: seq<Clause>)
    requires index >= 1
    requires AllSeparable(cs) && AllSeparable(ds)
    requires ClausesText(index, cs) == ClausesText(index, ds)
    ensures cs == ds
    decreases |cs|
  {
    NoneOrSome(index, cs, ds);
    if cs != [] {
      LaterSeparable(cs);
      LaterSeparable(ds);
      FirstClauseCut(index, cs[0], cs[1..], ds[0], ds[1..]);
      ClausesCut(index + 1, cs[1..], ds[1..]);
      SameParts(cs, ds);
    }
  }

  lemma SeparableClauses(grants: set<Grant>)
    requires Separable(grants)
    ensures AllSeparable(ClausesOf(grants))
  {
    forall i | 0 <= i < |ClausesOf(grants)| ensures SeparableClause(ClausesOf(grants)[i]) {
      var g := ClauseOfGrants(grants, i);
    }
  }

  /** Two separable recaps have one statement exactly when they grant the same abilities on the same URIs. */
  lemma StatementInjective(a: set<Grant>, b: set<Grant>)
    requires Separable(a) && Separable(b)
    ensures Statement(a) == Statement(b) <==> a == b
  {
    if Statement(a) == Statement(b) {
      SeparableClauses(a);
      SeparableClauses(b);
      Cancel(HEADER, ClausesText(1, ClausesOf(a)), ClausesText(1, ClausesOf(b)));
      ClausesCut(1, ClausesOf(a), ClausesOf(b));
      SameClausesSameGrants(a, b);
    }
  }

  // ----- Clauses in order -----

  ghost function Named(clauses: seq<Clause>): set<Grant> {
    set c, name | c in clauses && name in c.names :: (c.uri, Ability(c.namespace, name))
  }

  /** The form of the clauses of a recap: strictly growing, with names that grow strictly. */
  ghost predicate InOrder(clauses: seq<Clause>) {
    && StrictlySorted(PairLess, PairsOf(clauses))
    && forall i :: 0 <= i < |clauses| ==> clauses[i].names != [] && StrictlySorted(StringLess, clauses[i].names)
  }

  lemma NamedAt(clauses: seq<Clause>, i: nat)
    requires InOrder(clauses) && i < |clauses|
    ensures NamesRight(Named(clauses), clauses[i]) && Pair(clauses[i]) in Pairs(Named(clauses))
  {
    var grants, c := Named(clauses), clauses[i];
    assert (c.uri, Ability(c.namespace, c.names[0])) in grants;
    forall name ensures name in Names(grants, c.uri, c.namespace) <==> name in c.names {
      if name in c.names {
        assert (c.uri, Ability(c.namespace, name)) in grants;
      }
      if name in Names(grants, c.uri, c.namespace) {
        var d :| d in clauses && name in d.names && Pair(d) == Pair(c);
        var j :| 0 <= j < |clauses| && clauses[j] == d;
        PairLessLaws(Pair(c), Pair(d), Pair(c));
        assert PairsOf(clauses)[i] == PairsOf(clauses)[j];
      }
    }
  }

  lemma NamedPair(clauses: seq<Clause>, p: (string, string))
    requires InOrder(clauses)
    ensures p in PairsOf(clauses) <==> p in Pairs(Named(clauses))
  {
    if p in Pairs(Named(clauses)) {
      var g :| g in Named(clauses) && (g.0, g.1.namespace) == p;
      var c, name :| c in clauses && name in c.names && g == (c.uri, Ability(c.namespace, name));
      var i :| 0 <= i < |clauses| && clauses[i] == c;
      assert PairsOf(clauses)[i] == p;
    }
    if i :| 0 <= i < |PairsOf(clauses)| && PairsOf(clauses)[i] == p {
      NamedAt(clauses, i);
    }
  }

  /** Clauses in order are the clauses of what they grant. */
  lemma OrderedClauses(clauses: seq<Clause>)
    requires InOrder(clauses)
    ensures ClausesOf(Named(clauses)) == clauses
  {
    var grants := Named(clauses);
    forall i | 0 <= i < |clauses|
      ensures NamesRight(grants, clauses[i]) && PairsOf(clauses)[i] in Pairs(grants)
    {
      NamedAt(clauses, i);
    }
    forall p ensures p in Elements(PairsOf(clauses)) <==> p in Pairs(grants) {
      NamedPair(clauses, p);
    }
    CanonicalUnique(grants, clauses);
  }

  lemma OneNameInOrder(clauses: seq<Clause>)
    requires forall i :: 0 <= i < |clauses| ==> |clauses[i].names| == 1
    requires forall i, j :: 0 <= i < j < |clauses| ==> StringLess(clauses[i].uri, clauses[j].uri)
    ensures InOrder(clauses)
  {
  }

  /** The clauses of a recap are in order, with valid abilities if those of the recap are. */
  lemma ClausesInOrder(grants: set<Grant>)
    requires AllValid(grants)
    ensures InOrder(ClausesOf(grants)) && AllAble(ClausesOf(grants)) && Named(ClausesOf(grants)) == grants
  {
    var clauses := ClausesOf(grants);
    ClausesOfCanonical(grants);
    forall i | 0 <= i < |clauses| ensures Able(clauses[i]) && NamesRight(grants, clauses[i]) {
      var g := ClauseOfGrants(grants, i);
    }
    OrderedClauses(clauses);
    SameClausesSameGrants(Named(clauses), grants);
  }

  lemma AbleIsValid(clauses: seq<Clause>)
    requires AllAble(clauses)
    ensures AllValid(Named(clauses))
  {
    forall g | g in Named(clauses) ensures g.1.Valid() {
      var c, name :| c in clauses && name in c.names && g == (c.uri, Ability(c.namespace, name));
      var i :| 0 <= i < |clauses| && clauses[i] == c;
      assert Able(clauses[i]);
    }
  }

  // ----- Two recaps, one statement -----

  lemma OneGrant(c: Clause)
    requires |c.names| == 1
    ensures ClausesOf({(c.uri, Ability(c.namespace, c.names[0]))}) == [c]
  {
    OrderedClauses([c]);
    assert Named([c]) == {(c.uri, Ability(c.namespace, c.names[0]))};
  }

  lemma TwoGrants(c: Clause, d: Clause)
    requires |c.names| == |d.names| == 1 && StringLess(c.uri, d.uri)
    ensures ClausesOf({(c.uri, Ability(c.namespace, c.names[0])), (d.uri, Ability(d.namespace, d.names[0]))}) == [c, d]
  {
    OrderedClauses([c, d]);
    assert Named([c, d]) == {(c.uri, Ability(c.namespace, c.names[0])), (d.uri, Ability(d.namespace, d.names[0]))};
  }

  function Opening(digit: string): string {
    " (" + digit + ") 'n': 'x' for '"
  }

  const SPLICE := "'." + Opening("2")

  /**
   A quote in a URI can make two different recaps sign the same statement: for any two URIs, one URI that
   contains the end of the first clause and the beginning of the second.
   */
  lemma QuotedUriCollides(first: string, second: string)
    requires StringLess(first, second)
    ensures
      var ability := Ability("n", "x");
      var two: set<Grant> := {(first, ability), (second, ability)};
      var one: set<Grant> := {(first + SPLICE + second, ability)};
      ability.Valid() && one != two && Statement(one) == Statement(two)
  {
    assert |first + SPLICE + second| > |first|;
    SameText(first, second);
    OneForTwo(first, second, first + SPLICE + second);
  }

  lemma OneForTwo(first: string, second: string, spliced: string)
    requires StringLess(first, second) && spliced != first
    requires ClausesText(1, [Clause(spliced, "n", ["x"])])
          == ClausesText(1, [Clause(first, "n", ["x"]), Clause(second, "n", ["x"])])
    ensures
      var ability := Ability("n", "x");
      var two: set<Grant> := {(first, ability), (second, ability)};
      var one: set<Grant> := {(spliced, ability)};
      one != two && Statement(one) == Statement(two)
  {
    assert (first, Ability("n", "x")) !in {(spliced, Ability("n", "x"))};
    OneGrant(Clause(spliced, "n", ["x"]));
    TwoGrants(Clause(first, "n", ["x"]), Clause(second, "n", ["x"]));
  }

  lemma SameText(first: string, second: string)
    ensures ClausesText(1, [Clause(first + SPLICE + second, "n", ["x"])])
         == ClausesText(1, [Clause(first, "n", ["x"]), Clause(second, "n", ["x"])])
  {
    OneClause(1, Clause(first + SPLICE + second, "n", ["x"]));
    TwoClauses(1, Clause(first, "n", ["x"]), Clause(second, "n", ["x"]));
    ShortClause(1, "1", first + SPLICE + second);
    ShortClause(1, "1", first);
    ShortClause(2, "2", second);
    Respell(Opening("1"), first, "'.", Opening("2"), second);
  }

  lemma OneClause(index: nat, c: Clause)
    ensures ClausesText(index, [c]) == ClauseText(index, c)
  {
    assert [c][1..] == [] && ClausesText(index + 1, []) == "";
  }

  lemma TwoClauses(index: nat, c: Clause, d: Clause)
    ensures ClausesText(index, [c, d]) == ClauseText(index, c) + ClauseText(index + 1, d)
  {
    OneClause(index, c);
    assert [c] + [d] == [c, d];
    ClausesTextSnoc(index, [c], d);
  }

  lemma Respell(a: string, b: string, c: string, d: string, e: string)
    ensures a + (b + (c + d) + e) + c == (a + b + c) + (d + e + c)
  {
  }

  lemma ShortClause(index: nat, digit: string, uri: string)
    requires index < 10 && digit == [DIGITS[index]]
    ensures ClauseText(index, Clause(uri, "n", ["x"])) == Opening(digit) + uri + "'."
  {
    assert NamesText(["x"]) == " 'x'";
    assert ") '" + "n" + "':" + " 'x'" + " for '" == ") 'n': 'x' for '";
  }

  // ----- Which URIs can be read in two ways -----

  /** One text, of which the first clause has the URI in one reading and a shorter one in the other. */
  ghost predicate ReadsTwoWays(uri: string, index: nat, cs: seq<Clause>, ds: seq<Clause>) {
    && index >= 1 && AllAble(cs) && AllAble(ds) && cs != [] && ds != []
    && cs[0].uri == uri && |ds[0].uri| < |uri| && ClausesText(index, cs) == ClausesText(index, ds)
  }

  lemma TwoWaysSpells(uri: string, index: nat, cs: seq<Clause>, ds: seq<Clause>)
    requires ReadsTwoWays(uri, index, cs, ds)
    ensures SpellsClause(uri)
  {
    OpeningCut(index, cs[0], ds[0], ClausesText(index + 1, cs[1..]), ClausesText(index + 1, ds[1..]));
    ShorterUri(ds[0].uri, uri, index + 1, ds[1..], cs[1..]);
  }

  /** Spelling a clause is exactly what makes the end of a URI undecided. */
  lemma UndecidedExactly(uri: string)
    ensures SpellsClause(uri) <==> exists index: nat, cs, ds :: ReadsTwoWays(uri, index, cs, ds)
  {
    if index: nat, cs: seq<Clause>, ds: seq<Clause> :| ReadsTwoWays(uri, index, cs, ds) {
      TwoWaysSpells(uri, index, cs, ds);
    }
    if before: string, index: nat, c: Clause, after: string :| Spelled(uri, before, index, c, after) {
      if after == "" {
        QuoteSpelled(uri, before, index, c);
      } else {
        ClauseSpelled(uri, before, index, c, after);
      }
    }
  }

  function Small(uri: string): Clause {
    Clause(uri, "n", ["x"])
  }

  /** The URI has a whole beginning of a clause, and then the URI of that clause. */
  lemma ClauseSpelled(uri: string, before: string, index: nat, c: Clause, after: string)
    requires Spelled(uri, before, index, c, after) && after != ""
    ensures ReadsTwoWays(uri, index - 1, [Small(uri)], [Small(before), c.(uri := after[..|after| - 1])])
  {
    var rest := after[..|after| - 1];
    var d := c.(uri := rest);
    assert after == rest + "'" by {
      assert (uri + "'")[|uri|] == after[|after| - 1];
    }
    assert uri == before + "'." + OpeningText(index, c) + rest by {
      assert uri == (uri + "'")[..|uri|];
    }
    OneClause(index - 1, Small(uri));
    TwoClauses(index - 1, Small(before), d);
    AbleSmall(uri);
    AbleSmall(before);
    assert OpeningText(index, d) == OpeningText(index, c);
    ClauseWhole(OpeningText(index - 1, Small(uri)), before, OpeningText(index, c), rest);
  }

  lemma ClauseWhole(first: string, before: string, opening: string, rest: string)
    ensures first + (before + "'." + opening + rest) + "'." == (first + before + "'.") + (opening + rest + "'.")
  {
  }

  /** The URI lacks only the quote before the URI of that clause. */
  lemma QuoteSpelled(uri: string, before: string, index: nat, c: Clause)
    requires Spelled(uri, before, index, c, "")
    ensures
      var opening := OpeningText(index, Small(""));
      ReadsTwoWays(uri, index - 1, [Small(uri), Small("")], [Small(before), c.(uri := "." + opening)])
  {
    var opening := OpeningText(index, Small(""));
    var d := c.(uri := "." + opening);
    TwoClauses(index - 1, Small(uri), Small(""));
    TwoClauses(index - 1, Small(before), d);
    AbleSmall(uri);
    AbleSmall(before);
    AbleSmall("");
    assert OpeningText(index, d) == OpeningText(index, c);
    assert uri + "'" == before + "'." + OpeningText(index, c);
    QuoteShared(OpeningText(index - 1, Small(uri)), uri, before, OpeningText(index, c), opening);
  }

  lemma QuoteShared(first: string, uri: string, before: string, spelled: string, opening: string)
    requires uri + "'" == before + "'." + spelled
    ensures (first + uri + "'.") + (opening + "" + "'.") == (first + before + "'.") + (spelled + ("." + opening) + "'.")
  {
    assert "'." == "'" + ".";
    assert (first + uri + "'.") + (opening + "" + "'.") == first + (uri + "'") + ("." + opening + "'.");
    assert (first + before + "'.") + (spelled + ("." + opening) + "'.")
        == first + (before + "'." + spelled) + ("." + opening + "'.");
  }

  lemma AbleSmall(uri: string)
    ensures Able(Small(uri))
  {
    assert Ability("n", "x").Valid();
  }

  // ----- Which recaps have their statement alone -----

  /** Another recap with the same statement. */
  ghost predicate IsTwin(grants: set<Grant>, other: set<Grant>) {
    AllValid(other) && other != grants && Statement(other) == Statement(grants)
  }

  /** The URI of a clause is the URI of one clause, and then a second clause that may follow that one. */
  ghost predicate SplitsInto(c: Clause, before: string, d: Clause) {
    && Able(d) && StrictlySorted(StringLess, d.names)
    && c.uri == before + "'." + OpeningText(2, d) + d.uri && PairLess((before, c.namespace), Pair(d))
  }

  ghost predicate Splits(c: Clause) {
    exists before, d :: SplitsInto(c, before, d)
  }

  /** Both clauses in one: the URI goes on with the whole second clause. */
  function Merge(index: nat, c: Clause, d: Clause): Clause {
    c.(uri := c.uri + "'." + OpeningText(index + 1, d) + d.uri)
  }

  lemma MergeText(index: nat, c: Clause, d: Clause)
    ensures ClauseText(index, Merge(index, c, d)) == ClauseText(index, c) + ClauseText(index + 1, d)
  {
    assert OpeningText(index, Merge(index, c, d)) == OpeningText(index, c);
    ClauseWhole(OpeningText(index, c), c.uri, OpeningText(index + 1, d), d.uri);
  }

  lemma {:induction false} LongerIsGreater(a: string, b: string)
    requires a <= b && a != b
    ensures StringLess(a, b)
  {
    if a != "" {
      LongerIsGreater(a[1..], b[1..]);
    }
  }

  /** What precedes a pair precedes it with a longer URI too. */
  lemma LessThanLonger(p: (string, string), uri: string, longer: string, namespace: string)
    requires PairLess(p, (uri, namespace)) && uri <= longer
    ensures PairLess(p, (longer, namespace))
  {
    if uri != longer {
      LongerIsGreater(uri, longer);
      PairLessLaws(p, (uri, namespace), (longer, namespace));
    }
  }

  /** A text of clauses is that of its first clause, with a URI that holds the others. */
  lemma {:induction false} AllInFirst(index: nat, clauses: seq<Clause>) returns (uri: string)
    requires clauses != []
    ensures clauses[0].uri <= uri && ClausesText(index, clauses) == ClauseText(index, clauses[0].(uri := uri))
    decreases |clauses|
  {
    var c := clauses[0];
    if |clauses| == 1 {
      OneClause(index, c);
      assert clauses == [c];
      uri := c.uri;
    } else {
      var rest := AllInFirst(index + 1, clauses[1..]);
      var d := clauses[1].(uri := rest);
      MergeText(index, c, d);
      uri := Merge(index, c, d).uri;
      assert c.uri <= uri;
    }
  }

  lemma Append3(a: string, b: string, c: string)
    ensures a + (b + c) == (a + b) + c
  {
  }

  /** The texts of clauses, whatever the text of one is. */
  function TextBy(one: (nat, Clause) -> string, index: nat, clauses: seq<Clause>): string
    decreases |clauses|
  {
    if clauses == [] then "" else one(index, clauses[0]) + TextBy(one, index + 1, clauses[1..])
  }

  lemma {:induction false} TextByTwo(one: (nat, Clause) -> string, index: nat, front: seq<Clause>, back: seq<Clause>)
    ensures TextBy(one, index, front + back) == TextBy(one, index, front) + TextBy(one, index + |front|, back)
    decreases |front|
  {
    if front == [] {
      assert front + back == back;
    } else {
      TextByTwo(one, index + 1, front[1..], back);
      assert (front + back)[1..] == front[1..] + back;
      Append3(one(index, front[0]), TextBy(one, index + 1, front[1..]), TextBy(one, index + |front|, back));
    }
  }

  lemma {:induction false} ClausesTextBy(index: nat, clauses: seq<Clause>)
    ensures ClausesText(index, clauses) == TextBy(ClauseText, index, clauses)
    decreases |clauses|
  {
    if clauses != [] {
      ClausesTextBy(index + 1, clauses[1..]);
    }
  }

  lemma TextByAround(one: (nat, Clause) -> string, index: nat, cs: seq<Clause>, i: nat)
    requires i < |cs|
    ensures TextBy(one, index, cs)
         == TextBy(one, index, cs[..i]) + (one(index + i, cs[i]) + TextBy(one, index + i + 1, cs[i + 1..]))
  {
    assert cs == cs[..i] + cs[i..] && cs[i..][1..] == cs[i + 1..];
    TextByTwo(one, index, cs[..i], cs[i..]);
  }

  /** The text of one clause in a text of clauses. */
  lemma TextAround(index: nat, cs: seq<Clause>, i: nat)
    requires i < |cs|
    ensures ClausesText(index, cs) == ClausesText(index, cs[..i])
                                      + (ClauseText(index + i, cs[i]) + ClausesText(index + i + 1, cs[i + 1..]))
  {
    ClausesTextBy(index, cs);
    ClausesTextBy(index, cs[..i]);
    ClausesTextBy(index + i + 1, cs[i + 1..]);
    TextByAround(ClauseText, index, cs, i);
  }

  lemma TextOfTwo(index: nat, front: seq<Clause>, back: seq<Clause>)
    ensures ClausesText(index, front + back) == ClausesText(index, front) + ClausesText(index + |front|, back)
  {
    ClausesTextBy(index, front + back);
    ClausesTextBy(index, front);
    ClausesTextBy(index + |front|, back);
    TextByTwo(ClauseText, index, front, back);
  }

  /** The last two clauses can always be read as one. */
  lemma LastTwoMerge(clauses: seq<Clause>) returns (merged: seq<Clause>)
    requires InOrder(clauses) && AllAble(clauses) && |clauses| >= 2
    ensures InOrder(merged) && AllAble(merged) && |merged| == |clauses| - 1
    ensures ClausesText(1, merged) == ClausesText(1, clauses)
  {
    var n := |clauses|;
    var front, c, d := clauses[..n - 2], clauses[n - 2], clauses[n - 1];
    merged := front + [Merge(n - 1, c, d)];
    assert clauses == front + [c, d];
    MergedText(front, c, d);
    forall i | 0 <= i < |merged| ensures Able(merged[i]) {
      assert Able(clauses[i]);
    }
    LastInOrder(clauses, front, c, Merge(n - 1, c, d));
  }

  lemma MergedText(front: seq<Clause>, c: Clause, d: Clause)
    ensures ClausesText(1, front + [Merge(|front| + 1, c, d)]) == ClausesText(1, front + [c, d])
  {
    var one := Merge(|front| + 1, c, d);
    TextOfTwo(1, front, [c, d]);
    TextOfTwo(1, front, [one]);
    TwoClauses(|front| + 1, c, d);
    OneClause(|front| + 1, one);
    MergeText(|front| + 1, c, d);
  }

  /** The last clause can be replaced by one with a longer URI. */
  lemma LastInOrder(clauses: seq<Clause>, front: seq<Clause>, c: Clause, one: Clause)
    requires InOrder(clauses) && |front| < |clauses| && front == clauses[..|front|] && clauses[|front|] == c
    requires one == c.(uri := one.uri) && c.uri <= one.uri
    ensures InOrder(front + [one])
  {
    var longer := front + [one];
    forall i, j | 0 <= i < j < |longer| ensures PairLess(PairsOf(longer)[i], PairsOf(longer)[j]) {
      assert PairLess(PairsOf(clauses)[i], PairsOf(clauses)[j]);
      if j == |front| {
        LessThanLonger(Pair(clauses[i]), c.uri, one.uri, c.namespace);
      }
    }
  }

  lemma TwinOf(grants: set<Grant>, clauses: seq<Clause>)
    requires AllValid(grants) && InOrder(clauses) && AllAble(clauses) && |clauses| != |ClausesOf(grants)|
    requires ClausesText(1, clauses) == ClausesText(1, ClausesOf(grants))
    ensures IsTwin(grants, Named(clauses))
  {
    OrderedClauses(clauses);
    AbleIsValid(clauses);
  }

  lemma SplitGivesTwin(grants: set<Grant>, before: string, d: Clause)
    requires AllValid(grants) && |ClausesOf(grants)| == 1 && SplitsInto(ClausesOf(grants)[0], before, d)
    ensures IsTwin(grants, Named([ClausesOf(grants)[0].(uri := before), d]))
  {
    var c := ClausesOf(grants)[0];
    var b := c.(uri := before);
    ClausesInOrder(grants);
    assert Able(c) && OpeningText(1, b) == OpeningText(1, c);
    assert ClausesOf(grants) == [c];
    OneClause(1, c);
    TwoClauses(1, b, d);
    assert c == Merge(1, b, d);
    MergeText(1, b, d);
    assert PairsOf([b, d]) == [(before, c.namespace), Pair(d)];
    TwinOf(grants, [b, d]);
  }

  /** Two readings of one clause: the second one has another clause in the URI. */
  lemma TwinSplits(c: Clause, ds: seq<Clause>)
    requires Able(c) && InOrder(ds) && AllAble(ds) && ds != [] && ds != [c]
    requires ClausesText(1, [c]) == ClausesText(1, ds)
    ensures Splits(c)
  {
    var b := ds[0];
    OneClause(1, c);
    assert ClauseText(1, c) + "" == ClauseText(1, c);
    assert Able(b);
    OpeningCut(1, c, b, "", ClausesText(2, ds[1..]));
    if |ds| == 1 {
      assert c.uri + "'." == c.uri + "'." + "" && ds == [b];
      SameEnd(c.uri, b.uri, "'.");
    } else {
      var uri := AllInFirst(2, ds[1..]);
      var d := ds[1].(uri := uri);
      assert Able(ds[1]) && PairLess(PairsOf(ds)[0], PairsOf(ds)[1]);
      LessThanLonger(Pair(b), ds[1].uri, uri, ds[1].namespace);
      assert b.uri + "'." + ClauseText(2, d) == (b.uri + "'." + OpeningText(2, d) + uri) + "'.";
      assert c.uri + "'." + "" == c.uri + "'.";
      SameEnd(c.uri, b.uri + "'." + OpeningText(2, d) + uri, "'.");
      assert SplitsInto(c, b.uri, d);
    }
  }

  lemma SameEnd(a: string, b: string, end: string)
    requires a + end == b + end
    ensures a == b
  {
    assert |a| == |b| && a == (a + end)[..|a|] && b == (b + end)[..|b|];
  }

  /**
   Exactly the recaps whose statement another recap has too: all those with two clauses or more, since the last two
   can be read as one, and those with one clause if its URI splits into two clauses in order.
   */
  lemma SharedExactly(grants: set<Grant>)
    requires AllValid(grants)
    ensures (exists other :: IsTwin(grants, other)) <==>
      |ClausesOf(grants)| >= 2 || (|ClausesOf(grants)| == 1 && Splits(ClausesOf(grants)[0]))
  {
    var n := |ClausesOf(grants)|;
    if n >= 2 {
      var other := MergedTwin(grants);
    } else {
      if n == 1 && Splits(ClausesOf(grants)[0]) {
        var before, d :| SplitsInto(ClausesOf(grants)[0], before, d);
        SplitGivesTwin(grants, before, d);
      }
      if other :| IsTwin(grants, other) {
        TwinOnlyIf(grants, other);
      }
    }
  }

  lemma MergedTwin(grants: set<Grant>) returns (other: set<Grant>)
    requires AllValid(grants) && |ClausesOf(grants)| >= 2
    ensures IsTwin(grants, other)
  {
    ClausesInOrder(grants);
    var merged := LastTwoMerge(ClausesOf(grants));
    TwinOf(grants, merged);
    other := Named(merged);
  }

  lemma TwinOnlyIf(grants: set<Grant>, other: set<Grant>)
    requires AllValid(grants) && IsTwin(grants, other) && |ClausesOf(grants)| <= 1
    ensures |ClausesOf(grants)| == 1 && Splits(ClausesOf(grants)[0])
  {
    var cs, ds := ClausesOf(grants), ClausesOf(other);
    ClausesInOrder(grants);
    ClausesInOrder(other);
    Cancel(HEADER, ClausesText(1, cs), ClausesText(1, ds));
    ClausesTail(1, cs);
    ClausesTail(1, ds);
    if |cs| == 1 {
      assert cs == [cs[0]] && Able(cs[0]);
      TwinSplits(cs[0], ds);
    }
  }
}
