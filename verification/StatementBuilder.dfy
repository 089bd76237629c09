/**
 `build_statement` as it runs (src/siwx/erc5573.rs): loops over hash maps whose iteration order is arbitrary,
 with sorting, grouping by namespace, a growing text and a counter.
 */
module StatementBuilder {
  import opened Ordering
  import opened Recap

  /** One entry of the outer map, with the keys of its inner map, in the order of iteration. */
  type Entry = (string, seq<Ability>)

  ghost function GrantsOf(att: seq<Entry>): set<Grant> {
    set e, a | e in att && a in e.1 :: (e.0, a)
  }

  /** The entries come from maps: no key occurs twice. */
  ghost predicate FromMaps(att: seq<Entry>) {
    && (forall i, j :: 0 <= i < j < |att| ==> att[i].0 != att[j].0)
    && (forall i :: 0 <= i < |att| ==> Distinct(att[i].1))
  }

  // ----- Sorting by a key -----

  function InsertByKey<T>(key: T -> string, x: T, xs: seq<T>): seq<T> {
    if xs == [] || !StringLess(key(xs[0]), key(x)) then [x] + xs else [xs[0]] + InsertByKey(key, x, xs[1..])
  }

  function SortedByKey<T>(key: T -> string, xs: seq<T>): seq<T> {
    if xs == [] then [] else InsertByKey(key, xs[0], SortedByKey(key, xs[1..]))
  }

  ghost predicate KeysSorted<T>(key: T -> string, xs: seq<T>) {
    forall i, j :: 0 <= i < j < |xs| ==> StringLess(key(xs[i]), key(xs[j]))
  }

  lemma {:induction false} InsertByKeySorted<T(!new)>(key: T -> string, x: T, xs: seq<T>)
    requires KeysSorted(key, xs) && forall y :: y in xs ==> key(y) != key(x)
    ensures KeysSorted(key, InsertByKey(key, x, xs))
    ensures forall y :: y in InsertByKey(key, x, xs) <==> y == x || y in xs
  {
    if xs != [] {
      StringLessTotal(key(xs[0]), key(x));
      assert xs[0] in xs;
      if StringLess(key(xs[0]), key(x)) {
        InsertByKeySorted(key, x, xs[1..]);
        var tail := InsertByKey(key, x, xs[1..]);
        forall i | 0 <= i < |tail| ensures StringLess(key(xs[0]), key(tail[i])) {
          assert tail[i] in tail;
        }
      } else {
        forall i | 0 <= i < |xs| ensures StringLess(key(x), key(xs[i])) {
          if i > 0 {
            StringLessTransitive(key(x), key(xs[0]), key(xs[i]));
          }
        }
      }
    }
  }

  /** `sorted_by_key` on distinct keys: the same members, in strict order of their keys. */
  lemma {:induction false} SortedByKeySpec<T(!new)>(key: T -> string, xs: seq<T>)
    requires forall i, j :: 0 <= i < j < |xs| ==> key(xs[i]) != key(xs[j])
    ensures KeysSorted(key, SortedByKey(key, xs))
    ensures forall y :: y in SortedByKey(key, xs) <==> y in xs
  {
    if xs != [] {
      SortedByKeySpec(key, xs[1..]);
      forall y | y in SortedByKey(key, xs[1..]) ensures key(y) != key(xs[0]) {
        var i :| 0 <= i < |xs[1..]| && xs[1..][i] == y;
        assert xs[i + 1] == y;
      }
      InsertByKeySorted(key, xs[0], SortedByKey(key, xs[1..]));
    }
  }

  function Same(s: string): string {
    s
  }

  lemma SortedStringsByKey(xs: seq<string>)
    requires Distinct(xs)
    ensures StrictlySorted(StringLess, SortedByKey(Same, xs))
    ensures Elements(SortedByKey(Same, xs)) == Elements(xs)
  {
    SortedByKeySpec(Same, xs);
    assert KeysSorted(Same, SortedByKey(Same, xs));
  }

  // ----- Grouping -----

  /** The names of each namespace that has any. */
  ghost predicate GroupsOf(abilities: seq<Ability>, groups: map<string, seq<string>>) {
    && (forall namespace :: namespace in groups ==> groups[namespace] != [] && Distinct(groups[namespace]))
    && (forall a: Ability :: a in abilities <==> a.namespace in groups && a.name in groups[a.namespace])
  }

  /** `ability_groups.entry(namespace).or_insert_with(Vec::new).push(name)`, over the keys of the inner map. */
  method GroupByNamespace(abilities: seq<Ability>) returns (groups: map<string, seq<string>>)
    requires Distinct(abilities)
    ensures GroupsOf(abilities, groups)
  {
    groups := map[];
    for i := 0 to |abilities|
      invariant GroupsOf(abilities[..i], groups)
    {
      var a := abilities[i];
      assert a !in abilities[..i];
      assert abilities[..i + 1] == abilities[..i] + [a];
      var sofar := if a.namespace in groups then groups[a.namespace] else [];
      groups := groups[a.namespace := sofar + [a.name]];
    }
    assert abilities[..|abilities|] == abilities;
  }

  // ----- Adding clauses -----

  /** The clauses of a recap, with one more at the end for a later (URI, namespace). */
  lemma AppendClause(grants: set<Grant>, clauses: seq<Clause>, more: set<Grant>, c: Clause)
    requires IsCanonical(grants, clauses) && more != {}
    requires forall g :: g in more ==> (g.0, g.1.namespace) == Pair(c)
    requires forall g :: g in grants ==> PairLess((g.0, g.1.namespace), Pair(c))
    requires NamesRight(more, c)
    ensures IsCanonical(grants + more, clauses + [c])
  {
    var longer := clauses + [c];
    assert PairsOf(longer) == PairsOf(clauses) + [Pair(c)];
    forall i | 0 <= i < |clauses| ensures PairLess(Pair(clauses[i]), Pair(c)) {
      assert PairsOf(clauses)[i] in Elements(PairsOf(clauses));
    }
    PairsGrow(grants, more, c);
    assert Elements(PairsOf(longer)) == Elements(PairsOf(clauses)) + {Pair(c)};
    PairLessLaws(Pair(c), Pair(c), Pair(c));
    forall i | 0 <= i < |longer| ensures NamesRight(grants + more, longer[i]) {
      if i < |clauses| {
        assert NamesRight(grants, clauses[i]);
        PairLessLaws(Pair(clauses[i]), Pair(c), Pair(c));
        assert Pair(clauses[i]) != Pair(c);
        assert Names(grants + more, clauses[i].uri, clauses[i].namespace)
            == Names(grants, clauses[i].uri, clauses[i].namespace);
      } else {
        assert Names(grants + more, c.uri, c.namespace) == Names(more, c.uri, c.namespace);
      }
    }
  }

  lemma PairsGrow(grants: set<Grant>, more: set<Grant>, c: Clause)
    requires more != {} && forall g :: g in more ==> (g.0, g.1.namespace) == Pair(c)
    ensures Pairs(grants + more) == Pairs(grants) + {Pair(c)}
  {
    var g :| g in more;
    assert g in grants + more;
    forall p: (string, string) ensures p in Pairs(grants + more) <==> p in Pairs(grants) + {Pair(c)} {
      if p in Pairs(grants) {
        var h :| h in grants && (h.0, h.1.namespace) == p;
        assert h in grants + more;
      }
    }
  }

  /** The grants of one URI whose namespace is among `namespaces`. */
  ghost function GrantsIn(uri: string, abilities: seq<Ability>, namespaces: seq<string>): set<Grant> {
    set a | a in abilities && a.namespace in namespaces :: (uri, a)
  }

  ghost predicate AreNames(abilities: seq<Ability>, namespace: string, names: seq<string>) {
    forall name :: name in names <==> Ability(namespace, name) in abilities
  }

  lemma GrantsInNext(uri: string, abilities: seq<Ability>, namespaces: seq<string>, j: nat)
    requires j < |namespaces|
    ensures GrantsIn(uri, abilities, namespaces[..j + 1])
         == GrantsIn(uri, abilities, namespaces[..j]) + GrantsIn(uri, abilities, [namespaces[j]])
  {
    assert namespaces[..j + 1] == namespaces[..j] + [namespaces[j]];
  }

  lemma NextNamespace(before: set<Grant>, uri: string, abilities: seq<Ability>, namespaces: seq<string>, j: nat,
                      clauses: seq<Clause>, names: seq<string>)
    requires j < |namespaces| && StrictlySorted(StringLess, namespaces)
    requires forall g :: g in before ==> StringLess(g.0, uri)
    requires IsCanonical(before + GrantsIn(uri, abilities, namespaces[..j]), clauses)
    requires StrictlySorted(StringLess, names) && names != []
    requires AreNames(abilities, namespaces[j], names)
    ensures IsCanonical(before + GrantsIn(uri, abilities, namespaces[..j + 1]),
                        clauses + [Clause(uri, namespaces[j], names)])
  {
    var c := Clause(uri, namespaces[j], names);
    var grants := before + GrantsIn(uri, abilities, namespaces[..j]);
    var more := GrantsIn(uri, abilities, [namespaces[j]]);
    assert names[0] in names && (uri, Ability(namespaces[j], names[0])) in more;
    GrantsInNext(uri, abilities, namespaces, j);
    assert before + GrantsIn(uri, abilities, namespaces[..j + 1]) == grants + more;
    forall g | g in grants ensures PairLess((g.0, g.1.namespace), Pair(c)) {
      if g !in before {
        var k :| 0 <= k < j && namespaces[k] == g.1.namespace;
      }
    }
    forall name ensures name in names <==> name in Names(more, uri, namespaces[j]) {
      if name in names {
        assert (uri, Ability(namespaces[j], name)) in more;
      }
    }
    AppendClause(grants, clauses, more, c);
  }

  // ----- The method -----

  lemma OneMoreEntry(att: seq<Entry>, i: nat)
    requires i < |att|
    ensures GrantsOf(att[..i + 1]) == GrantsOf(att[..i]) + (set a | a in att[i].1 :: (att[i].0, a))
  {
    assert att[..i + 1] == att[..i] + [att[i]];
  }

  function UriOf(e: Entry): string {
    e.0
  }

  lemma AllNamespaces(uri: string, abilities: seq<Ability>, namespaces: seq<string>)
    requires forall a :: a in abilities ==> a.namespace in namespaces
    ensures GrantsIn(uri, abilities, namespaces) == set a | a in abilities :: (uri, a)
  {
  }

  lemma SortedNames(abilities: seq<Ability>, groups: map<string, seq<string>>, namespace: string)
    requires GroupsOf(abilities, groups) && namespace in groups
    ensures StrictlySorted(StringLess, SortedByKey(Same, groups[namespace]))
    ensures SortedByKey(Same, groups[namespace]) != []
    ensures AreNames(abilities, namespace, SortedByKey(Same, groups[namespace]))
  {
    var names := SortedByKey(Same, groups[namespace]);
    SortedStringsByKey(groups[namespace]);
    assert groups[namespace][0] in Elements(names);
    forall name ensures name in names <==> Ability(namespace, name) in abilities {
      assert name in Elements(names) <==> name in Elements(groups[namespace]);
    }
  }

  lemma MoreText(clauses: seq<Clause>, c: Clause)
    ensures StatementText(clauses + [c]) == StatementText(clauses) + ClauseText(1 + |clauses|, c)
  {
    ClausesTextSnoc(1, clauses, c);
  }

  /** One turn of the loop over the namespaces: a numbered clause is appended to the text. */
  method AddClause(statement: string, index: nat, uri: string, abilities: seq<Ability>,
                   groups: map<string, seq<string>>, namespaces: seq<string>, j: nat,
                   ghost before: set<Grant>, ghost clauses: seq<Clause>)
      returns (statement': string, ghost clauses': seq<Clause>)
    requires GroupsOf(abilities, groups) && StrictlySorted(StringLess, namespaces)
    requires j < |namespaces| && namespaces[j] in groups
    requires forall g :: g in before ==> StringLess(g.0, uri)
    requires IsCanonical(before + GrantsIn(uri, abilities, namespaces[..j]), clauses)
    requires statement == StatementText(clauses) && index == 1 + |clauses|
    ensures IsCanonical(before + GrantsIn(uri, abilities, namespaces[..j + 1]), clauses')
    ensures statement' == StatementText(clauses') && |clauses'| == 1 + |clauses|
  {
    var namespace := namespaces[j];
    var names := SortedByKey(Same, groups[namespace]);
    SortedNames(abilities, groups, namespace);
    NextNamespace(before, uri, abilities, namespaces, j, clauses, names);
    clauses' := clauses + [Clause(uri, namespace, names)];
    MoreText(clauses, Clause(uri, namespace, names));
    statement' := statement +
      (" (" + Decimal(index) + ") '" + namespace + "':" + NamesText(names) + " for '" + uri + "'.");
  }

  /** The sorted keys of the groups. */
  method SortedNamespaces(groups: map<string, seq<string>>) returns (namespaces: seq<string>)
    ensures StrictlySorted(StringLess, namespaces) && forall n :: n in namespaces <==> n in groups
  {
    var keys := InSomeOrder(groups.Keys);
    namespaces := SortedByKey(Same, keys);
    SortedStringsByKey(keys);
    forall n ensures n in namespaces <==> n in groups {
      assert n in Elements(namespaces) <==> n in groups.Keys;
    }
  }

  /** The clauses of one URI. */
  method AddUri(statement: string, index: nat, uri: string, abilities: seq<Ability>,
                ghost before: set<Grant>, ghost clauses: seq<Clause>)
      returns (statement': string, index': nat, ghost clauses': seq<Clause>)
    requires Distinct(abilities) && IsCanonical(before, clauses)
    requires forall g :: g in before ==> StringLess(g.0, uri)
    requires statement == StatementText(clauses) && index == 1 + |clauses|
    ensures IsCanonical(before + (set a | a in abilities :: (uri, a)), clauses')
    ensures statement' == StatementText(clauses') && index' == 1 + |clauses'|
  {
    statement', index', clauses' := statement, index, clauses;
    var groups := GroupByNamespace(abilities);
    var namespaces := SortedNamespaces(groups);
    assert before + GrantsIn(uri, abilities, []) == before;
    for j := 0 to |namespaces|
      invariant IsCanonical(before + GrantsIn(uri, abilities, namespaces[..j]), clauses')
      invariant statement' == StatementText(clauses') && index' == 1 + |clauses'|
    {
      assert namespaces[j] in namespaces;
      statement', clauses' := AddClause(statement', index', uri, abilities, groups, namespaces, j, before, clauses');
      index' := index' + 1;
    }
    assert namespaces[..|namespaces|] == namespaces;
    AllNamespaces(uri, abilities, namespaces);
  }

  /**
   The statement depends only on what the recap grants: for every order of iteration it is the text of the
   canonical clauses, numbered from 1.
   */
  method BuildStatement(att: seq<Entry>) returns (statement: string)
    requires FromMaps(att)
    ensures statement == Statement(GrantsOf(att))
  {
    statement := HEADER;
    var index := 1;
    var entries := SortedByKey(UriOf, att);
    SortedByKeySpec(UriOf, att);
    ghost var clauses: seq<Clause> := [];
    for i := 0 to |entries|
      invariant IsCanonical(GrantsOf(entries[..i]), clauses)
      invariant statement == StatementText(clauses) && index == 1 + |clauses|
    {
      var (uri, abilities) := entries[i];
      assert entries[i] in att;
      forall g | g in GrantsOf(entries[..i]) ensures StringLess(g.0, uri) {
        var k :| 0 <= k < i && entries[k].0 == g.0;
        assert StringLess(UriOf(entries[k]), UriOf(entries[i]));
      }
      statement, index, clauses := AddUri(statement, index, uri, abilities, GrantsOf(entries[..i]), clauses);
      OneMoreEntry(entries, i);
    }
    assert entries[..|entries|] == entries;
    assert GrantsOf(entries) == GrantsOf(att);
    CanonicalUnique(GrantsOf(att), clauses);
  }
}
