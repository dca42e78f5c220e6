/**
 What the walk over role files makes of the order in which directories list their entries: whether it succeeds and what
 it then lists do not depend on it; which error a failing walk returns does.
 */
module RoleListingOrder {
  import opened Common
  import opened Sorting
  import opened RoleDiscovery

  /** The trees differ only in the order of the entries of their directories, at any depth. */
  ghost predicate Reordered(a: Node, b: Node)
    decreases a, 1
  {
    if !a.Dir? then a == b
    else
      b.Dir? && match a.listing {
        case Missing => b.listing.Missing?
        case Broken(error) => b.listing == Broken(error)
        case Entries(entries) => b.listing.Entries? && ReorderedAll(entries, b.listing.entries)
      }
  }

  /** Some arrangement of `es`, with reordered nodes, is `fs`. */
  ghost predicate ReorderedAll(es: seq<Entry>, fs: seq<Entry>)
    decreases es, 0
  {
    if es == [] then fs == []
    else exists j :: 0 <= j < |fs| && fs[j].name == es[0].name && Reordered(es[0].node, fs[j].node) && ReorderedAll(es[1..], Without(fs, j))
  }

  function Without<T>(s: seq<T>, j: nat): seq<T>
    requires j < |s|
  {
    s[..j] + s[j + 1..]
  }

  lemma {:induction false} ReorderedItself(a: Node)
    ensures Reordered(a, a)
    decreases a, 1
  {
    if a.Dir? && a.listing.Entries? {
      AllReorderedItself(a.listing.entries);
    }
  }

  lemma {:induction false} AllReorderedItself(es: seq<Entry>)
    ensures ReorderedAll(es, es)
    decreases es, 0
  {
    if es != [] {
      ReorderedItself(es[0].node);
      AllReorderedItself(es[1..]);
      assert Without(es, 0) == es[1..];
    }
  }

  // ----- taking an entry out -----

  lemma {:induction false} FindWithout(fs: seq<Entry>, j: nat, name: string)
    requires j < |fs|
    ensures fs[j].name != name ==> FindEntry(fs, name) == FindEntry(Without(fs, j), name)
    ensures fs[j].name == name && FindEntry(Without(fs, j), name).None? ==> FindEntry(fs, name) == Some(fs[j].node)
  {
    if j == 0 {
      assert Without(fs, 0) == fs[1..];
    } else {
      FindWithout(fs[1..], j - 1, name);
      assert Without(fs, j)[0] == fs[0] && Without(fs, j)[1..] == Without(fs[1..], j - 1);
    }
  }

  lemma {:induction false} OpenableWithout(fs: seq<Entry>, j: nat)
    requires j < |fs|
    ensures OpenableAll(fs) <==> Openable(fs[j].node) && OpenableAll(Without(fs, j))
  {
    if j == 0 {
      assert Without(fs, 0) == fs[1..];
    } else {
      OpenableWithout(fs[1..], j - 1);
      assert Without(fs, j)[0] == fs[0] && Without(fs, j)[1..] == Without(fs[1..], j - 1);
    }
  }

  lemma DistinctWithout(fs: seq<Entry>, j: nat)
    requires j < |fs| && DistinctEntries(Without(fs, j)) && FindEntry(Without(fs, j), fs[j].name).None? && UniqueNames(fs[j].node)
    ensures DistinctEntries(fs)
  {
    var rest := Without(fs, j);
    EntryFound(rest, fs[j].name);
    forall i | 0 <= i < |fs| && i != j ensures fs[i].name != fs[j].name && UniqueNames(fs[i].node) {
      assert fs[i] == rest[if i < j then i else i - 1];
    }
    forall i, k | 0 <= i < k < |fs| && i != j && k != j ensures fs[i].name != fs[k].name {
      assert fs[i] == rest[if i < j then i else i - 1] && fs[k] == rest[if k < j then k else k - 1];
    }
  }

  // ----- what reordering keeps -----

  ghost predicate Matches(x: Option<Node>, y: Option<Node>) {
    (x.None? && y.None?) || (x.Some? && y.Some? && Reordered(x.value, y.value))
  }

  lemma {:induction false} ReorderedUnique(a: Node, b: Node)
    requires Reordered(a, b) && UniqueNames(a)
    ensures UniqueNames(b)
    decreases a, 1
  {
    if a.Dir? && a.listing.Entries? {
      AllReorderedUnique(a.listing.entries, b.listing.entries);
    }
  }

  lemma {:induction false} AllReorderedUnique(es: seq<Entry>, fs: seq<Entry>)
    requires ReorderedAll(es, fs) && DistinctEntries(es)
    ensures DistinctEntries(fs) && forall name :: Matches(FindEntry(es, name), FindEntry(fs, name))
    decreases es, 0
  {
    if es != [] {
      var j :| 0 <= j < |fs| && fs[j].name == es[0].name && Reordered(es[0].node, fs[j].node) && ReorderedAll(es[1..], Without(fs, j));
      AllReorderedUnique(es[1..], Without(fs, j));
      ReorderedUnique(es[0].node, fs[j].node);
      EntryFound(es[1..], es[0].name);
      assert Matches(FindEntry(es[1..], es[0].name), FindEntry(Without(fs, j), es[0].name));
      DistinctWithout(fs, j);
      forall name ensures Matches(FindEntry(es, name), FindEntry(fs, name)) {
        FindWithout(fs, j, name);
        assert Matches(FindEntry(es[1..], name), FindEntry(Without(fs, j), name));
      }
    }
  }

  lemma {:induction false} ReorderedLookup(a: Node, b: Node, path: Path)
    requires Reordered(a, b) && UniqueNames(a)
    ensures Matches(Lookup(a, path), Lookup(b, path))
    decreases |path|
  {
    if path != [] && a.Dir? && a.listing.Entries? {
      var es, fs := a.listing.entries, b.listing.entries;
      AllReorderedUnique(es, fs);
      assert Matches(FindEntry(es, path[0]), FindEntry(fs, path[0]));
      EntryFound(es, path[0]);
      match FindEntry(es, path[0])
      case None =>
      case Some(node) =>
        var i :| 0 <= i < |es| && es[i].name == path[0];
        assert node == es[i].node;
        ReorderedLookup(node, FindEntry(fs, path[0]).value, path[1..]);
    }
  }

  lemma {:induction false} ReorderedOpenable(a: Node, b: Node)
    requires Reordered(a, b)
    ensures Openable(a) <==> Openable(b)
    decreases a, 1
  {
    if a.Dir? && a.listing.Entries? {
      AllReorderedOpenable(a.listing.entries, b.listing.entries);
    }
  }

  lemma {:induction false} AllReorderedOpenable(es: seq<Entry>, fs: seq<Entry>)
    requires ReorderedAll(es, fs)
    ensures OpenableAll(es) <==> OpenableAll(fs)
    decreases es, 0
  {
    if es != [] {
      var j :| 0 <= j < |fs| && fs[j].name == es[0].name && Reordered(es[0].node, fs[j].node) && ReorderedAll(es[1..], Without(fs, j));
      AllReorderedOpenable(es[1..], Without(fs, j));
      ReorderedOpenable(es[0].node, fs[j].node);
      OpenableWithout(fs, j);
    }
  }

  lemma ReorderedTomlFiles(a: Node, b: Node, path: Path)
    requires Reordered(a, b) && UniqueNames(a)
    ensures IsTomlFile(a, path) <==> IsTomlFile(b, path)
  {
    ReorderedLookup(a, b, path);
  }

  /** Only one list is in ascending order, without repetition, and holds exactly these paths. */
  lemma SameListing(a: seq<Path>, b: seq<Path>)
    requires Sorted(StringsLe, a) && NoDuplicates(a) && Sorted(StringsLe, b) && NoDuplicates(b)
    requires forall p :: p in a <==> p in b
    ensures a == b
  {
    StringOrders();
    DistinctElementsFixMultiset(a);
    DistinctElementsFixMultiset(b);
    assert Elements(a) == Elements(b);
    SortedIsUnique(StringsLe, a, b);
  }

  /** However directories list their entries, the walk succeeds or fails alike, and when it succeeds it returns the same
      list. */
  lemma ListingOrderIsIrrelevant(a: Node, b: Node, r: Result<seq<Path>, string>, r': Result<seq<Path>, string>)
    requires UniqueNames(a) && Reordered(a, b) && WalkOutcome(a, r) && WalkOutcome(b, r')
    ensures UniqueNames(b) && (r.Ok? <==> r'.Ok?) && (r.Ok? ==> r' == r)
  {
    ReorderedUnique(a, b);
    ReorderedOpenable(a, b);
    if r.Ok? {
      forall p ensures p in r.value <==> p in r'.value {
        ReorderedTomlFiles(a, b, p);
      }
      SameListing(r.value, r'.value);
    }
  }

  // ----- which error a failing walk returns -----

  /** Some directory at or below the node cannot be opened, with this error. */
  ghost predicate HasError(node: Node, error: string)
    decreases node, 1
  {
    node.Dir? && (node.listing == Broken(error) || (node.listing.Entries? && HasErrorIn(node.listing.entries, error)))
  }

  ghost predicate HasErrorIn(entries: seq<Entry>, error: string)
    decreases entries, 0
  {
    entries != [] && (HasError(entries[0].node, error) || HasErrorIn(entries[1..], error))
  }

  lemma {:induction false} FirstErrorIsOne(node: Node, error: string)
    ensures FirstError(node) == Some(error) ==> HasError(node, error)
    ensures HasError(node, error) ==> FirstError(node).Some?
    decreases node, 1
  {
    if node.Dir? && node.listing.Entries? {
      FirstErrorIsOneIn(node.listing.entries, error);
    }
  }

  lemma {:induction false} FirstErrorIsOneIn(entries: seq<Entry>, error: string)
    ensures FirstErrorIn(entries) == Some(error) ==> HasErrorIn(entries, error)
    ensures HasErrorIn(entries, error) ==> FirstErrorIn(entries).Some?
    decreases entries, 0
  {
    if entries != [] {
      FirstErrorCons(entries);
      FirstErrorIsOne(entries[0].node, error);
      FirstErrorIsOneIn(entries[1..], error);
    }
  }

  lemma {:induction false} HasErrorWithout(fs: seq<Entry>, j: nat, error: string)
    requires j < |fs|
    ensures HasErrorIn(fs, error) <==> HasError(fs[j].node, error) || HasErrorIn(Without(fs, j), error)
  {
    if j == 0 {
      assert Without(fs, 0) == fs[1..];
    } else {
      HasErrorWithout(fs[1..], j - 1, error);
      assert Without(fs, j)[0] == fs[0] && Without(fs, j)[1..] == Without(fs[1..], j - 1);
    }
  }

  lemma {:induction false} ReorderedErrors(a: Node, b: Node, error: string)
    requires Reordered(a, b)
    ensures HasError(a, error) <==> HasError(b, error)
    decreases a, 1
  {
    if a.Dir? && a.listing.Entries? {
      AllReorderedErrors(a.listing.entries, b.listing.entries, error);
    }
  }

  lemma {:induction false} AllReorderedErrors(es: seq<Entry>, fs: seq<Entry>, error: string)
    requires ReorderedAll(es, fs)
    ensures HasErrorIn(es, error) <==> HasErrorIn(fs, error)
    decreases es, 0
  {
    if es != [] {
      var j :| 0 <= j < |fs| && fs[j].name == es[0].name && Reordered(es[0].node, fs[j].node) && ReorderedAll(es[1..], Without(fs, j));
      AllReorderedErrors(es[1..], Without(fs, j), error);
      ReorderedErrors(es[0].node, fs[j].node, error);
      HasErrorWithout(fs, j, error);
    }
  }

  /** Any directory that cannot be opened can be made the first one the walk takes. */
  lemma {:induction false} AnyErrorCanComeFirst(node: Node, error: string) returns (b: Node)
    requires HasError(node, error)
    ensures Reordered(node, b) && FirstError(b) == Some(error)
    decreases node, 1
  {
    if node.listing.Broken? {
      b := node;
    } else {
      var fs := AnyErrorCanComeFirstIn(node.listing.entries, error);
      b := Dir(Entries(fs));
    }
  }

  lemma {:induction false} AnyErrorCanComeFirstIn(es: seq<Entry>, error: string) returns (fs: seq<Entry>)
    requires HasErrorIn(es, error)
    ensures ReorderedAll(es, fs) && FirstErrorIn(fs) == Some(error)
    decreases es, 0
  {
    if HasError(es[0].node, error) {
      var node := AnyErrorCanComeFirst(es[0].node, error);
      fs := es[1..] + [Entry(es[0].name, node)];
      AllReorderedItself(es[1..]);
      assert Without(fs, |es| - 1) == es[1..] && fs[|es| - 1].node == node && fs[..|es| - 1] == es[1..];
    } else {
      var rest := AnyErrorCanComeFirstIn(es[1..], error);
      fs := [es[0]] + rest;
      ReorderedItself(es[0].node);
      assert Without(fs, 0) == rest;
      FirstErrorCons(fs);
      assert fs[1..] == rest;
    }
  }

  /** All directories that cannot be opened fail alike. */
  ghost predicate OneError(node: Node) {
    forall e, e' :: HasError(node, e) && HasError(node, e') ==> e == e'
  }

  ghost predicate ErrorIsFixed(node: Node) {
    forall b :: Reordered(node, b) ==> FirstError(b) == FirstError(node)
  }

  /** The error of the walk does not depend on the listing order if and only if all directories that cannot be opened fail
      with the same error. */
  lemma ErrorIsFixedIff(node: Node)
    ensures ErrorIsFixed(node) <==> OneError(node)
  {
    if OneError(node) {
      forall b | Reordered(node, b) ensures FirstError(b) == FirstError(node) {
        SameFirstError(node, b);
      }
    }
    if ErrorIsFixed(node) {
      forall e, e' | HasError(node, e) && HasError(node, e') ensures e == e' {
        var b := AnyErrorCanComeFirst(node, e);
        var b' := AnyErrorCanComeFirst(node, e');
        assert FirstError(b) == FirstError(node) == FirstError(b');
      }
    }
  }

  lemma SameFirstError(a: Node, b: Node)
    requires OneError(a) && Reordered(a, b)
    ensures FirstError(a) == FirstError(b)
  {
    if FirstError(a).Some? {
      var e := FirstError(a).value;
      FirstErrorIsOne(a, e);
      ReorderedErrors(a, b, e);
      FirstErrorIsOne(b, e);
      var e' := FirstError(b).value;
      FirstErrorIsOne(b, e');
      ReorderedErrors(a, b, e');
    } else if FirstError(b).Some? {
      var e := FirstError(b).value;
      FirstErrorIsOne(b, e);
      ReorderedErrors(a, b, e);
      FirstErrorIsOne(a, e);
    }
  }

  /** A directory with two subdirectories that cannot be opened. */
  function TwoBroken(n1: string, e1: string, n2: string, e2: string): Node {
    Dir(Entries([Entry(n1, Dir(Broken(e1))), Entry(n2, Dir(Broken(e2)))]))
  }

  /** Listed in the other order, the same two subdirectories make the walk return the other error. */
  lemma OrderDecidesError(n1: string, e1: string, n2: string, e2: string, r: Result<seq<Path>, string>, r': Result<seq<Path>, string>)
    requires n1 != n2 && WalkOutcome(TwoBroken(n1, e1, n2, e2), r) && WalkOutcome(TwoBroken(n2, e2, n1, e1), r')
    ensures UniqueNames(TwoBroken(n1, e1, n2, e2)) && Reordered(TwoBroken(n1, e1, n2, e2), TwoBroken(n2, e2, n1, e1))
    ensures r == Err(e2) && r' == Err(e1)
  {
    var a, b := Entry(n1, Dir(Broken(e1))), Entry(n2, Dir(Broken(e2)));
    assert [a, b][1..] == [b] && Without([b, a], 1) == [b] && [b][1..] == [] && Without([b], 0) == [];
    assert ReorderedAll([], []);
    assert ReorderedAll([b], [b]);
    assert ReorderedAll([a, b], [b, a]);
    TwoBrokenError(n1, e1, n2, e2);
    TwoBrokenError(n2, e2, n1, e1);
  }

  lemma TwoBrokenError(n1: string, e1: string, n2: string, e2: string)
    ensures FirstError(TwoBroken(n1, e1, n2, e2)) == Some(e2) && !Openable(TwoBroken(n1, e1, n2, e2))
  {
    var entries := [Entry(n1, Dir(Broken(e1))), Entry(n2, Dir(Broken(e2)))];
    assert FirstError(entries[1].node) == Some(e2);
    assert FirstErrorIn(entries) == Some(e2);
    OpenableMeans(TwoBroken(n1, e1, n2, e2));
  }

  /** When all directories that cannot be opened fail alike, the whole outcome is independent of the listing order. */
  lemma OutcomeIsIndependent(a: Node, b: Node, r: Result<seq<Path>, string>, r': Result<seq<Path>, string>)
    requires UniqueNames(a) && Reordered(a, b) && OneError(a) && WalkOutcome(a, r) && WalkOutcome(b, r')
    ensures r' == r
  {
    ListingOrderIsIrrelevant(a, b, r, r');
    SameFirstError(a, b);
  }
}
