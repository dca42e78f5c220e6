/**
 Sorting as the modelled programs use it: a stable list sort under a total order, the
 sorted listing of a set (`sorted(dict.items())`), and the lexicographic order of strings,
 tuples of strings and path components.
 */
module Sorting {

  ghost predicate TotalOrder<T(!new)>(le: (T, T) -> bool) {
    && (forall x :: le(x, x))
    && (forall x, y :: le(x, y) && le(y, x) ==> x == y)
    && (forall x, y, z :: le(x, y) && le(y, z) ==> le(x, z))
    && (forall x, y :: le(x, y) || le(y, x))
  }

  ghost predicate Sorted<T>(le: (T, T) -> bool, s: seq<T>) {
    forall i, j :: 0 <= i < j < |s| ==> le(s[i], s[j])
  }

  ghost predicate NoDuplicates<T>(s: seq<T>) {
    forall i, j :: 0 <= i < j < |s| ==> s[i] != s[j]
  }

  function Insert<T>(le: (T, T) -> bool, x: T, s: seq<T>): seq<T> {
    if s == [] then [x]
    else if le(x, s[0]) then [x] + s
    else [s[0]] + Insert(le, x, s[1..])
  }

  function Sort<T>(le: (T, T) -> bool, s: seq<T>): seq<T> {
    if s == [] then [] else Insert(le, s[0], Sort(le, s[1..]))
  }

  lemma {:induction false} InsertKeepsElements<T>(le: (T, T) -> bool, x: T, s: seq<T>)
    ensures multiset(Insert(le, x, s)) == multiset{x} + multiset(s)
  {
    if s != [] && !le(x, s[0]) {
      InsertKeepsElements(le, x, s[1..]);
      assert s == [s[0]] + s[1..];
    }
  }

  lemma {:induction false} InsertSorted<T(!new)>(le: (T, T) -> bool, x: T, s: seq<T>)
    requires TotalOrder(le) && Sorted(le, s)
    ensures Sorted(le, Insert(le, x, s))
  {
    if s != [] && !le(x, s[0]) {
      InsertSorted(le, x, s[1..]);
      InsertKeepsElements(le, x, s[1..]);
      var rest := Insert(le, x, s[1..]);
      forall i | 0 <= i < |rest| ensures le(s[0], rest[i]) {
        assert rest[i] in multiset(rest);
      }
    }
  }

  /** The sort returns a rearrangement of its input in ascending order. */
  lemma {:induction false} SortCorrect<T(!new)>(le: (T, T) -> bool, s: seq<T>)
    requires TotalOrder(le)
    ensures Sorted(le, Sort(le, s))
    ensures multiset(Sort(le, s)) == multiset(s)
    ensures |Sort(le, s)| == |s|
  {
    if s != [] {
      SortCorrect(le, s[1..]);
      InsertSorted(le, s[0], Sort(le, s[1..]));
      InsertKeepsElements(le, s[0], Sort(le, s[1..]));
      assert s == [s[0]] + s[1..];
    }
    assert |multiset(Sort(le, s))| == |multiset(s)|;
  }

  /** Only one arrangement of a collection is in ascending order. */
  lemma {:induction false} SortedIsUnique<T(!new)>(le: (T, T) -> bool, a: seq<T>, b: seq<T>)
    requires TotalOrder(le) && Sorted(le, a) && Sorted(le, b)
    requires multiset(a) == multiset(b)
    ensures a == b
  {
    assert |a| == |multiset(a)| == |multiset(b)| == |b|;
    if a != [] {
      assert a[0] in multiset(b) && b[0] in multiset(a);
      assert a[0] == b[0];
      assert a == [a[0]] + a[1..] && b == [b[0]] + b[1..];
      assert multiset(a[1..]) == multiset(a) - multiset{a[0]};
      assert multiset(b[1..]) == multiset(b) - multiset{b[0]};
      SortedIsUnique(le, a[1..], b[1..]);
    }
  }

  function Elements<T>(s: seq<T>): set<T> {
    set x | x in s
  }

  lemma ElementsMean<T>(q: seq<T>, s: set<T>)
    requires Elements(q) == s
    ensures q == [] <==> s == {}
    ensures forall x :: x in q ==> x in s
  {
    forall x | x in q ensures x in s {
      assert x in Elements(q);
    }
    if q != [] { assert q[0] in s; }
  }

  lemma {:induction false} DistinctElementsFixMultiset<T>(a: seq<T>)
    requires NoDuplicates(a)
    ensures multiset(a) == multiset(Elements(a))
  {
    if a != [] {
      var n := |a| - 1;
      DistinctElementsFixMultiset(a[..n]);
      assert a == a[..n] + [a[n]];
      assert Elements(a) == Elements(a[..n]) + {a[n]};
    }
  }

  lemma {:induction false} SortedListing<T(!new)>(le: (T, T) -> bool, s: set<T>) returns (q: seq<T>)
    requires TotalOrder(le)
    ensures Sorted(le, q) && NoDuplicates(q) && Elements(q) == s && |q| == |s|
  {
    if s == {} {
      q := [];
    } else {
      var x :| x in s;
      var p := SortedListing(le, s - {x});
      q := Insert(le, x, p);
      InsertSorted(le, x, p);
      InsertKeepsElements(le, x, p);
      DistinctElementsFixMultiset(p);
      assert multiset(q) == multiset(s) by {
        assert s == s - {x} + {x};
      }
      ListingOfSet(q, s);
    }
  }

  lemma ListingOfSet<T>(q: seq<T>, s: set<T>)
    requires multiset(q) == multiset(s)
    ensures NoDuplicates(q) && Elements(q) == s && |q| == |s|
  {
    assert forall x :: x in multiset(q) <==> x in s;
    assert forall x :: x in q <==> x in multiset(q);
    assert |multiset(q)| == |q|;
    forall i, j | 0 <= i < j < |q| ensures q[i] != q[j] {
      RepetitionIsCounted(q, i, j);
      assert multiset(s)[q[i]] <= 1;
    }
  }

  lemma RepetitionIsCounted<T>(q: seq<T>, i: nat, j: nat)
    requires i < j < |q|
    ensures q[i] == q[j] ==> multiset(q)[q[i]] >= 2
  {
    var r := q[..i] + q[i + 1..j] + q[j + 1..];
    assert q == q[..i] + [q[i]] + q[i + 1..j] + [q[j]] + q[j + 1..];
    assert multiset(q) == multiset(r) + multiset{q[i], q[j]};
  }

  /** The elements of a set in ascending order, each once. */
  ghost function SortedSet<T(!new)>(le: (T, T) -> bool, s: set<T>): (q: seq<T>)
    requires TotalOrder(le)
    ensures Sorted(le, q) && NoDuplicates(q) && Elements(q) == s && |q| == |s|
  {
    SortedSetExists(le, s);
    var q :| Sorted(le, q) && NoDuplicates(q) && Elements(q) == s && |q| == |s|;
    q
  }

  lemma SortedSetExists<T(!new)>(le: (T, T) -> bool, s: set<T>)
    requires TotalOrder(le)
    ensures exists q :: Sorted(le, q) && NoDuplicates(q) && Elements(q) == s && |q| == |s|
  {
    var q := SortedListing(le, s);
  }

  /** Any ascending duplicate-free listing of a set is its sorted listing. */
  lemma SortedSetUnique<T(!new)>(le: (T, T) -> bool, q: seq<T>)
    requires TotalOrder(le) && Sorted(le, q) && NoDuplicates(q)
    ensures q == SortedSet(le, Elements(q))
  {
    var p := SortedSet(le, Elements(q));
    DistinctElementsFixMultiset(q);
    DistinctElementsFixMultiset(p);
    SortedIsUnique(le, p, q);
  }

  /** Lists a set in ascending order: pick its elements one by one, then sort. */
  method ListSorted<T(==, !new)>(le: (T, T) -> bool, s: set<T>) returns (q: seq<T>)
    requires TotalOrder(le)
    ensures q == SortedSet(le, s)
  {
    var rest, picked := s, [];
    while rest != {}
      invariant rest <= s
      invariant multiset(picked) + multiset(rest) == multiset(s)
      decreases |rest|
    {
      var x :| x in rest;
      picked := picked + [x];
      assert multiset(rest) == multiset(rest - {x}) + multiset{x};
      rest := rest - {x};
    }
    q := Sort(le, picked);
    SortCorrect(le, picked);
    ListingOfSet(q, s);
    SortedSetUnique(le, q);
  }

  /** The elements that satisfy p, in order. */
  function Filter<T>(p: T -> bool, s: seq<T>): seq<T> {
    if s == [] then []
    else
      var n := |s| - 1;
      Filter(p, s[..n]) + if p(s[n]) then [s[n]] else []
  }

  lemma FilterNext<T>(p: T -> bool, s: seq<T>, i: nat)
    requires i < |s|
    ensures Filter(p, s[..i + 1]) == Filter(p, s[..i]) + if p(s[i]) then [s[i]] else []
  {
    assert s[..i + 1][..i] == s[..i];
  }

  lemma {:induction false} FilterElement<T>(p: T -> bool, s: seq<T>, x: T)
    ensures x in Filter(p, s) <==> x in s && p(x)
  {
    if s != [] {
      var n := |s| - 1;
      FilterElement(p, s[..n], x);
      assert s == s[..n] + [s[n]];
    }
  }

  lemma {:induction false} FilterKeepsOrder<T>(le: (T, T) -> bool, p: T -> bool, s: seq<T>)
    requires Sorted(le, s) && NoDuplicates(s)
    ensures Sorted(le, Filter(p, s)) && NoDuplicates(Filter(p, s))
  {
    if s != [] {
      var n := |s| - 1;
      FilterKeepsOrder(le, p, s[..n]);
      var f := Filter(p, s[..n]);
      forall i | 0 <= i < |f| ensures le(f[i], s[n]) && f[i] != s[n] {
        FilterElement(p, s[..n], f[i]);
        var j :| 0 <= j < n && s[j] == f[i];
      }
    }
  }

  /** Choosing from a sorted listing gives the sorted listing of what is chosen. */
  lemma FilterSorted<T(!new)>(le: (T, T) -> bool, s: set<T>, p: T -> bool, chosen: set<T>)
    requires TotalOrder(le)
    requires forall x :: x in chosen <==> x in s && p(x)
    ensures Filter(p, SortedSet(le, s)) == SortedSet(le, chosen)
  {
    var q := SortedSet(le, s);
    FilterKeepsOrder(le, p, q);
    forall x ensures x in Filter(p, q) <==> x in chosen {
      FilterElement(p, q, x);
      assert x in Elements(q) <==> x in q;
    }
    SortedSetUnique(le, Filter(p, q));
    assert Elements(Filter(p, q)) == chosen;
  }

  // ----- lexicographic orders -----

  /** The order of sequences that compares the first difference, a prefix coming first. */
  predicate LexLe<T(==)>(le: (T, T) -> bool, a: seq<T>, b: seq<T>) {
    if a == [] then true
    else if b == [] then false
    else if a[0] == b[0] then LexLe(le, a[1..], b[1..])
    else le(a[0], b[0])
  }

  lemma {:induction false} LexReflexive<T(!new)>(le: (T, T) -> bool, a: seq<T>)
    ensures LexLe(le, a, a)
  {
    if a != [] { LexReflexive(le, a[1..]); }
  }

  lemma {:induction false} LexAntisymmetric<T(!new)>(le: (T, T) -> bool, a: seq<T>, b: seq<T>)
    requires TotalOrder(le) && LexLe(le, a, b) && LexLe(le, b, a)
    ensures a == b
  {
    if a != [] {
      LexAntisymmetric(le, a[1..], b[1..]);
      assert a == [a[0]] + a[1..] && b == [b[0]] + b[1..];
    }
  }

  lemma {:induction false} LexTransitive<T(!new)>(le: (T, T) -> bool, a: seq<T>, b: seq<T>, c: seq<T>)
    requires TotalOrder(le) && LexLe(le, a, b) && LexLe(le, b, c)
    ensures LexLe(le, a, c)
  {
    if a != [] && a[0] == b[0] == c[0] { LexTransitive(le, a[1..], b[1..], c[1..]); }
  }

  lemma {:induction false} LexTotal<T(!new)>(le: (T, T) -> bool, a: seq<T>, b: seq<T>)
    requires TotalOrder(le)
    ensures LexLe(le, a, b) || LexLe(le, b, a)
  {
    if a != [] && b != [] && a[0] == b[0] { LexTotal(le, a[1..], b[1..]); }
  }

  lemma LexIsTotalOrder<T(!new)>(le: (T, T) -> bool)
    requires TotalOrder(le)
    ensures TotalOrder((a: seq<T>, b: seq<T>) => LexLe(le, a, b))
  {
    forall a: seq<T> ensures LexLe(le, a, a) { LexReflexive(le, a); }
    forall a: seq<T>, b: seq<T> | LexLe(le, a, b) && LexLe(le, b, a) ensures a == b {
      LexAntisymmetric(le, a, b);
    }
    forall a: seq<T>, b: seq<T>, c: seq<T> | LexLe(le, a, b) && LexLe(le, b, c) ensures LexLe(le, a, c) {
      LexTransitive(le, a, b, c);
    }
    forall a: seq<T>, b: seq<T> ensures LexLe(le, a, b) || LexLe(le, b, a) { LexTotal(le, a, b); }
  }

  /** Comparing by a key that tells any two values apart is a total order. */
  lemma OrderByKey<T(!new), K(!new)>(le: (K, K) -> bool, key: T -> K, order: (T, T) -> bool)
    requires TotalOrder(le)
    requires forall a, b :: key(a) == key(b) ==> a == b
    requires forall a, b :: order(a, b) <==> le(key(a), key(b))
    ensures TotalOrder(order)
  {
    forall a, b, c | order(a, b) && order(b, c) ensures order(a, c) {
      assert le(key(a), key(b)) && le(key(b), key(c));
    }
    forall a, b ensures order(a, b) || order(b, a) {
      assert le(key(a), key(b)) || le(key(b), key(a));
    }
  }

  const CharLe: (char, char) -> bool := (a: char, b: char) => a <= b

  /** The code-point order of strings. */
  const StringLe: (string, string) -> bool := (a: string, b: string) => LexLe(CharLe, a, b)

  /** The order of tuples of strings and of paths split into components. */
  const StringsLe: (seq<string>, seq<string>) -> bool := (a: seq<string>, b: seq<string>) => LexLe(StringLe, a, b)

  lemma StringOrders()
    ensures TotalOrder(StringLe) && TotalOrder(StringsLe)
  {
    assert TotalOrder(CharLe);
    LexIsTotalOrder(CharLe);
    LexIsTotalOrder(StringLe);
  }

  /** The strings of a set in ascending order, each once. */
  ghost function SortedStrings(s: set<string>): seq<string> {
    StringOrders();
    SortedSet(StringLe, s)
  }

  lemma SortedStringsAre(s: set<string>)
    ensures var q := SortedStrings(s); Sorted(StringLe, q) && NoDuplicates(q) && Elements(q) == s && |q| == |s|
  {
    StringOrders();
  }

  method ListStrings(s: set<string>) returns (q: seq<string>)
    ensures q == SortedStrings(s)
    ensures NoDuplicates(q) && Elements(q) == s
  {
    StringOrders();
    q := ListSorted(StringLe, s);
  }
}
