/** The sorted listing of a finite set, and the order of strings. */
module Ordering {

  ghost predicate StrictTotalOn<T(!new)>(less: (T, T) -> bool, s: set<T>) {
    && (forall x :: x in s ==> !less(x, x))
    && (forall x, y :: x in s && y in s && x != y ==> less(x, y) || less(y, x))
    && (forall x, y, z :: x in s && y in s && z in s && less(x, y) && less(y, z) ==> less(x, z))
  }

  ghost predicate StrictlySorted<T(!new)>(less: (T, T) -> bool, xs: seq<T>) {
    forall i, j :: 0 <= i < j < |xs| ==> less(xs[i], xs[j])
  }

  function Elements<T(!new)>(xs: seq<T>): (s: set<T>)
    ensures forall x :: x in s <==> x in xs
    ensures s == {} <==> xs == []
  {
    assert xs != [] ==> xs[0] in xs;
    set x | x in xs
  }

  predicate Distinct<T(==)>(xs: seq<T>) {
    forall i, j :: 0 <= i < j < |xs| ==> xs[i] != xs[j]
  }

  /** The members in some order: what a query without `ORDER BY`, or the iteration of a hash map, gives. */
  method InSomeOrder<T(==, !new)>(s: set<T>) returns (xs: seq<T>)
    ensures Elements(xs) == s && |xs| == |s|
    ensures Distinct(xs)
  {
    xs := [];
    var left := s;
    while left != {}
      invariant Elements(xs) !! left && Elements(xs) + left == s && |xs| + |left| == |s|
      invariant Distinct(xs)
      decreases left
    {
      var x :| x in left;
      assert x !in Elements(xs);
      xs := xs + [x];
      left := left - {x};
    }
  }

  ghost predicate IsLeast<T(!new)>(less: (T, T) -> bool, s: set<T>, m: T) {
    m in s && forall x :: x in s && x != m ==> less(m, x)
  }

  lemma {:induction false} HasLeast<T(!new)>(less: (T, T) -> bool, s: set<T>) returns (m: T)
    requires s != {} && StrictTotalOn(less, s)
    ensures IsLeast(less, s, m)
    decreases |s|
  {
    m :| m in s;
    if s != {m} {
      var rest := s - {m};
      var r := HasLeast(less, rest);
      if less(r, m) {
        m := r;
      }
    }
  }

  ghost function Least<T(!new)>(less: (T, T) -> bool, s: set<T>): (m: T)
    requires s != {} && StrictTotalOn(less, s)
    ensures IsLeast(less, s, m)
  {
    assert exists m :: IsLeast(less, s, m) by {
      var m := HasLeast(less, s);
    }
    var m :| IsLeast(less, s, m);
    m
  }

  lemma PrependLeast<T(!new)>(less: (T, T) -> bool, m: T, xs: seq<T>)
    requires StrictlySorted(less, xs) && (forall x :: x in xs ==> less(m, x))
    ensures StrictlySorted(less, [m] + xs)
  {
  }

  /** `ORDER BY` and `sorted`: take the least member, then list the rest. */
  ghost function Listing<T(!new)>(less: (T, T) -> bool, s: set<T>): seq<T>
    requires StrictTotalOn(less, s)
    decreases |s|
  {
    if s == {} then
      []
    else
      var m := Least(less, s);
      [m] + Listing(less, s - {m})
  }

  /** The listing holds the members of `s`, each once, in increasing order. */
  lemma {:induction false} ListingSpec<T(!new)>(less: (T, T) -> bool, s: set<T>)
    requires StrictTotalOn(less, s)
    ensures Elements(Listing(less, s)) == s && |Listing(less, s)| == |s|
    ensures StrictlySorted(less, Listing(less, s))
    decreases |s|
  {
    if s != {} {
      var m := Least(less, s);
      ListingSpec(less, s - {m});
      PrependLeast(less, m, Listing(less, s - {m}));
    }
  }

  /** There is one such listing, so every way of sorting gives the same answer. */
  lemma {:induction false} SortedUnique<T(!new)>(less: (T, T) -> bool, xs: seq<T>, ys: seq<T>)
    requires StrictTotalOn(less, Elements(xs))
    requires StrictlySorted(less, xs) && StrictlySorted(less, ys)
    requires Elements(xs) == Elements(ys)
    ensures xs == ys
    decreases |xs|
  {
    if xs != [] {
      FirstIsLeast(less, xs, ys[0]);
      FirstIsLeast(less, ys, xs[0]);
      TailElements(less, xs);
      TailElements(less, ys);
      SortedUnique(less, xs[1..], ys[1..]);
    }
  }

  lemma FirstIsLeast<T(!new)>(less: (T, T) -> bool, xs: seq<T>, x: T)
    requires StrictlySorted(less, xs) && x in xs
    ensures x == xs[0] || less(xs[0], x)
  {
    var i :| 0 <= i < |xs| && xs[i] == x;
  }

  lemma TailElements<T(!new)>(less: (T, T) -> bool, xs: seq<T>)
    requires xs != [] && StrictlySorted(less, xs) && StrictTotalOn(less, Elements(xs))
    ensures Elements(xs[1..]) == Elements(xs) - {xs[0]}
    ensures StrictTotalOn(less, Elements(xs[1..])) && StrictlySorted(less, xs[1..])
  {
    forall x
      ensures x in xs[1..] <==> x in xs && x != xs[0]
    {
      assert xs[0] in Elements(xs);
      if x in xs[1..] {
        var i :| 0 <= i < |xs[1..]| && xs[1..][i] == x;
        assert less(xs[0], xs[i + 1]);
      }
    }
  }

  lemma ListingIs<T(!new)>(less: (T, T) -> bool, s: set<T>, xs: seq<T>)
    requires StrictTotalOn(less, s) && Elements(xs) == s && StrictlySorted(less, xs)
    ensures xs == Listing(less, s)
  {
    ListingSpec(less, s);
    SortedUnique(less, xs, Listing(less, s));
  }

  ghost function Above<T(!new)>(less: (T, T) -> bool, s: set<T>, c: T): set<T> {
    set x | x in s && less(c, x)
  }

  lemma SortedSuffix<T(!new)>(less: (T, T) -> bool, xs: seq<T>, i: nat, x: T)
    requires StrictTotalOn(less, Elements(xs)) && StrictlySorted(less, xs) && i < |xs|
    ensures x in xs[i + 1..] <==> x in xs && less(xs[i], x)
  {
    if x in xs && less(xs[i], x) {
      var j :| 0 <= j < |xs| && xs[j] == x;
      assert xs[i] in Elements(xs) && x in Elements(xs);
      assert x == xs[i + 1..][j - (i + 1)];
    }
    if x in xs[i + 1..] {
      var j :| 0 <= j < |xs[i + 1..]| && xs[i + 1..][j] == x;
      assert x == xs[i + 1 + j];
    }
  }

  lemma AboveIsSuffix<T(!new)>(less: (T, T) -> bool, xs: seq<T>, i: nat)
    requires StrictTotalOn(less, Elements(xs)) && StrictlySorted(less, xs) && i < |xs|
    ensures Elements(xs[i + 1..]) == Above(less, Elements(xs), xs[i])
  {
    forall x
      ensures x in Elements(xs[i + 1..]) <==> x in Above(less, Elements(xs), xs[i])
    {
      SortedSuffix(less, xs, i, x);
    }
  }

  /** The members after the i-th are the listing cut after position i. */
  lemma ListingAfter<T(!new)>(less: (T, T) -> bool, s: set<T>, i: nat)
    requires StrictTotalOn(less, s) && i < |Listing(less, s)|
    ensures StrictTotalOn(less, Above(less, s, Listing(less, s)[i]))
    ensures Listing(less, Above(less, s, Listing(less, s)[i])) == Listing(less, s)[i + 1..]
  {
    var xs := Listing(less, s);
    ListingSpec(less, s);
    AboveIsSuffix(less, xs, i);
    ListingIs(less, Above(less, s, xs[i]), xs[i + 1..]);
  }

  // ----- Strings -----

  /** Rust's order on strings: by the first differing code point, a proper prefix first. */
  predicate StringLess(a: string, b: string) {
    b != [] && (a == [] || a[0] < b[0] || (a[0] == b[0] && StringLess(a[1..], b[1..])))
  }

  lemma {:induction false} StringLessTotal(a: string, b: string)
    ensures !StringLess(a, a)
    ensures a != b ==> StringLess(a, b) || StringLess(b, a)
  {
    if a != [] {
      StringLessTotal(a[1..], if b == [] then [] else b[1..]);
      assert b != [] && a[0] == b[0] && a[1..] == b[1..] ==> a == [a[0]] + a[1..] == b;
    }
  }

  lemma {:induction false} StringLessTransitive(a: string, b: string, c: string)
    requires StringLess(a, b) && StringLess(b, c)
    ensures StringLess(a, c)
  {
    if a != [] && a[0] == b[0] == c[0] {
      StringLessTransitive(a[1..], b[1..], c[1..]);
    }
  }

  lemma StringLessStrictTotal(s: set<string>)
    ensures StrictTotalOn(StringLess, s)
  {
    forall x, y, z
      ensures !StringLess(x, x)
      ensures x != y ==> StringLess(x, y) || StringLess(y, x)
      ensures StringLess(x, y) && StringLess(y, z) ==> StringLess(x, z)
    {
      StringLessTotal(x, y);
      if StringLess(x, y) && StringLess(y, z) {
        StringLessTransitive(x, y, z);
      }
    }
  }

  /** The order of a dictionary: the first difference decides, and a beginning of a string goes before it. */
  predicate Precedes(a: string, b: string) {
    exists i :: 0 <= i <= |a| && i < |b| && a[..i] == b[..i] && (i == |a| || a[i] < b[i])
  }

  lemma {:induction false} StringLessExactly(a: string, b: string)
    ensures StringLess(a, b) <==> Precedes(a, b)
  {
    if a != [] && b != [] && a[0] == b[0] {
      StringLessExactly(a[1..], b[1..]);
      if i :| 0 <= i <= |a[1..]| && i < |b[1..]| && a[1..][..i] == b[1..][..i] &&
              (i == |a[1..]| || a[1..][i] < b[1..][i]) {
        assert a[..i + 1] == [a[0]] + a[1..][..i] && b[..i + 1] == [b[0]] + b[1..][..i];
        assert Precedes(a, b);
      }
      if i :| 0 <= i <= |a| && i < |b| && a[..i] == b[..i] && (i == |a| || a[i] < b[i]) {
        assert i > 0;
        assert a[1..][..i - 1] == a[..i][1..] && b[1..][..i - 1] == b[..i][1..];
        assert Precedes(a[1..], b[1..]);
      }
    } else {
      PrecedesAtOnce(a, b);
    }
  }

  lemma SameFirst(a: string, b: string)
    ensures forall i :: 0 < i <= |a| && i <= |b| && a[..i] == b[..i] ==> a[0] == b[0]
  {
    forall i | 0 < i <= |a| && i <= |b| && a[..i] == b[..i] ensures a[0] == b[0] {
      assert a[..i][0] == b[..i][0];
    }
  }

  lemma PrecedesAtOnce(a: string, b: string)
    requires a == [] || b == [] || a[0] != b[0]
    ensures Precedes(a, b) <==> b != [] && (a == [] || a[0] < b[0])
  {
    SameFirst(a, b);
    if b != [] && (a == [] || a[0] < b[0]) {
      assert a[..0] == b[..0];
    }
  }
}
