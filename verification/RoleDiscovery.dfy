/**
 Finding role files: a walk over a directory tree with an explicit stack. A path is the list of
 its components below the starting directory.
 */
module RoleDiscovery {
  import opened Common
  import opened Sorting

  type Path = seq<string>

  /** What is found at a path. A directory may disappear, or fail to open, by the time it is read. */
  datatype Node = File | Special | Dir(listing: Listing)

  datatype Listing = Missing | Broken(error: string) | Entries(entries: seq<Entry>)

  datatype Entry = Entry(name: string, node: Node)

  /** `path.extension() == "toml"`: the name has a stem, and `toml` after its last dot. */
  predicate TomlName(name: string) {
    |name| > 5 && name[|name| - 5..] == ".toml"
  }

  // ----- the file system -----

  function FindEntry(entries: seq<Entry>, name: string): Option<Node> {
    if entries == [] then None
    else if entries[0].name == name then Some(entries[0].node)
    else FindEntry(entries[1..], name)
  }

  function Lookup(fs: Node, path: Path): Option<Node>
    decreases |path|
  {
    if path == [] then Some(fs)
    else if !fs.Dir? || !fs.listing.Entries? then None
    else
      match FindEntry(fs.listing.entries, path[0])
      case None => None
      case Some(node) => Lookup(node, path[1..])
  }

  /** fs.read_directory */
  function ReadDirectory(fs: Node, path: Path): Listing {
    match Lookup(fs, path)
    case None => Missing
    case Some(node) => if node.Dir? then node.listing else Broken("not a directory")
  }

  /** A directory lists no name twice. */
  predicate UniqueNames(node: Node)
    decreases node
  {
    node.Dir? && node.listing.Entries? ==>
      var es := node.listing.entries;
      && (forall i, j :: 0 <= i < j < |es| ==> es[i].name != es[j].name)
      && (forall i :: 0 <= i < |es| ==> UniqueNames(es[i].node))
  }

  // ----- what the walk should find -----

  /** The regular `.toml` files at or below a node that is found at `at`. */
  function Toml(at: Path, name: string, node: Node): multiset<Path>
    decreases node, 1
  {
    match node
    case File => if TomlName(name) then multiset{at} else multiset{}
    case Special => multiset{}
    case Dir(listing) => if listing.Entries? then TomlIn(at, listing.entries) else multiset{}
  }

  function TomlIn(at: Path, entries: seq<Entry>): multiset<Path>
    decreases entries, 0
  {
    if entries == [] then multiset{}
    else Toml(at + [entries[0].name], entries[0].name, entries[0].node) + TomlIn(at, entries[1..])
  }

  /** No directory at or below the node fails to open. */
  predicate Openable(node: Node)
    decreases node, 1
  {
    node.Dir? ==> !node.listing.Broken? && (node.listing.Entries? ==> OpenableAll(node.listing.entries))
  }

  predicate OpenableAll(entries: seq<Entry>)
    decreases entries, 0
  {
    entries == [] || (Openable(entries[0].node) && OpenableAll(entries[1..]))
  }

  /** The error that ends the walk: directories are taken from the end of the stack, so of several that cannot be
      opened the one listed last comes first. */
  function FirstError(node: Node): Option<string>
    decreases node, 1
  {
    if !node.Dir? then None
    else
      match node.listing
      case Missing => None
      case Broken(error) => Some(error)
      case Entries(entries) => FirstErrorIn(entries)
  }

  function FirstErrorIn(entries: seq<Entry>): Option<string>
    decreases entries, 0
  {
    if entries == [] then None
    else FirstError(entries[|entries| - 1].node).Or(FirstErrorIn(entries[..|entries| - 1]))
  }

  function Size(node: Node): nat
    decreases node, 1
  {
    1 + if node.Dir? && node.listing.Entries? then SizeAll(node.listing.entries) else 0
  }

  function SizeAll(entries: seq<Entry>): nat
    decreases entries, 0
  {
    if entries == [] then 0 else Size(entries[0].node) + SizeAll(entries[1..])
  }

  lemma {:induction false} FirstErrorCons(entries: seq<Entry>)
    requires entries != []
    ensures FirstErrorIn(entries) == FirstErrorIn(entries[1..]).Or(FirstError(entries[0].node))
  {
    var n := |entries| - 1;
    if n > 0 {
      FirstErrorCons(entries[..n]);
      assert entries[..n][1..] == entries[1..][..n - 1];
    }
  }

  lemma {:induction false} OpenableMeans(node: Node)
    ensures Openable(node) <==> FirstError(node).None?
    decreases node, 1
  {
    if node.Dir? && node.listing.Entries? {
      AllOpenableMeans(node.listing.entries);
    }
  }

  lemma {:induction false} AllOpenableMeans(entries: seq<Entry>)
    ensures OpenableAll(entries) <==> FirstErrorIn(entries).None?
    decreases entries, 0
  {
    if entries != [] {
      FirstErrorCons(entries);
      OpenableMeans(entries[0].node);
      AllOpenableMeans(entries[1..]);
    }
  }

  // ----- what is found, path by path -----

  /** Below a node called `name`, the relative path leads to a regular `.toml` file. */
  predicate Leads(name: string, node: Node, rel: Path) {
    if rel == [] then node.File? && TomlName(name) else Lookup(node, rel) == Some(File) && TomlName(rel[|rel| - 1])
  }

  predicate LeadsIn(entries: seq<Entry>, rel: Path) {
    rel != [] && match FindEntry(entries, rel[0]) { case None => false case Some(node) => Leads(rel[0], node, rel[1..]) }
  }

  predicate DistinctEntries(entries: seq<Entry>) {
    && (forall i, j :: 0 <= i < j < |entries| ==> entries[i].name != entries[j].name)
    && (forall i :: 0 <= i < |entries| ==> UniqueNames(entries[i].node))
  }

  lemma {:induction false} EntryFound(entries: seq<Entry>, name: string)
    ensures FindEntry(entries, name).None? <==> forall i :: 0 <= i < |entries| ==> entries[i].name != name
    ensures forall i :: 0 <= i < |entries| && entries[i].name == name && DistinctEntries(entries) ==> FindEntry(entries, name) == Some(entries[i].node)
  {
    if entries != [] && entries[0].name != name {
      EntryFound(entries[1..], name);
      forall i | 0 <= i < |entries| && entries[i].name == name ensures i > 0 && entries[1..][i - 1] == entries[i] { }
    }
  }

  /** Each `.toml` file below a node is counted once, and nothing else is counted. */
  lemma {:induction false} TomlCounts(at: Path, name: string, node: Node, p: Path)
    requires UniqueNames(node)
    ensures Toml(at, name, node)[p] == if at <= p && Leads(name, node, p[|at|..]) then 1 else 0
    decreases node, 1
  {
    if node.Dir? && node.listing.Entries? {
      var es := node.listing.entries;
      TomlInCounts(at, es, p);
      if at <= p { LeadsThrough(name, node, p[|at|..]); }
    } else if node.File? {
      assert at <= p && p[|at|..] == [] <==> p == at;
    }
  }

  lemma LeadsThrough(name: string, node: Node, rel: Path)
    requires node.Dir? && node.listing.Entries?
    ensures Leads(name, node, rel) <==> LeadsIn(node.listing.entries, rel)
  {
    if rel != [] {
      match FindEntry(node.listing.entries, rel[0])
      case None =>
      case Some(child) =>
        assert Lookup(node, rel) == Lookup(child, rel[1..]);
        if |rel| == 1 {
          assert rel[1..] == [] && Lookup(child, rel[1..]) == Some(child);
        } else {
          assert rel[|rel| - 1] == rel[1..][|rel| - 2];
        }
    }
  }

  lemma {:induction false} TomlInCounts(at: Path, entries: seq<Entry>, p: Path)
    requires DistinctEntries(entries)
    ensures TomlIn(at, entries)[p] == if at <= p && LeadsIn(entries, p[|at|..]) then 1 else 0
    decreases entries, 0
  {
    if entries != [] {
      var e := entries[0];
      TomlCounts(at + [e.name], e.name, e.node, p);
      TomlInCounts(at, entries[1..], p);
      if at <= p {
        LeadsInCons(entries, p[|at|..]);
        StepDown(at, e.name, p);
      }
    }
  }

  lemma StepDown(at: Path, name: string, p: Path)
    requires at <= p
    ensures var rel := p[|at|..];
            && (at + [name] <= p <==> rel != [] && rel[0] == name)
            && (at + [name] <= p ==> p[|at + [name]|..] == rel[1..])
  {
  }

  lemma LeadsInCons(entries: seq<Entry>, rel: Path)
    requires entries != [] && DistinctEntries(entries)
    ensures var e := entries[0];
            && (LeadsIn(entries, rel) <==> (rel != [] && rel[0] == e.name && Leads(e.name, e.node, rel[1..])) || LeadsIn(entries[1..], rel))
            && (rel != [] && rel[0] == e.name ==> !LeadsIn(entries[1..], rel))
  {
    EntryFound(entries[1..], entries[0].name);
  }

  lemma {:induction false} LookupChild(fs: Node, path: Path, entries: seq<Entry>, k: nat)
    requires Lookup(fs, path) == Some(Dir(Entries(entries))) && DistinctEntries(entries) && k < |entries|
    ensures Lookup(fs, path + [entries[k].name]) == Some(entries[k].node)
    decreases |path|
  {
    var child := path + [entries[k].name];
    if path == [] {
      EntryFound(entries, entries[k].name);
      assert child[1..] == [];
    } else {
      var node := FindEntry(fs.listing.entries, path[0]).value;
      LookupChild(node, path[1..], entries, k);
      assert child[0] == path[0] && child[1..] == path[1..] + [entries[k].name];
    }
  }

  // ----- the stack -----

  /** The files still to be found below the directories on the stack. */
  ghost function Pending(dirs: seq<Path>, nodes: seq<Node>): multiset<Path>
    requires |dirs| == |nodes|
  {
    if dirs == [] then multiset{}
    else
      var n := |dirs| - 1;
      Pending(dirs[..n], nodes[..n]) + Toml(dirs[n], "", nodes[n])
  }

  ghost function StackSize(nodes: seq<Node>): nat {
    if nodes == [] then 0 else StackSize(nodes[..|nodes| - 1]) + Size(nodes[|nodes| - 1])
  }

  /** The error that the directories on the stack will lead to. */
  ghost function StackError(nodes: seq<Node>): Option<string> {
    if nodes == [] then None else FirstError(nodes[|nodes| - 1]).Or(StackError(nodes[..|nodes| - 1]))
  }

  /** The stack holds directories of the tree. */
  ghost predicate Stacked(fs: Node, dirs: seq<Path>, nodes: seq<Node>) {
    && |dirs| == |nodes|
    && forall k :: 0 <= k < |dirs| ==> Lookup(fs, dirs[k]) == Some(nodes[k]) && nodes[k].Dir? && UniqueNames(nodes[k])
  }

  lemma Pushed(dirs: seq<Path>, nodes: seq<Node>, path: Path, node: Node)
    requires |dirs| == |nodes|
    ensures Pending(dirs + [path], nodes + [node]) == Pending(dirs, nodes) + Toml(path, "", node)
    ensures StackSize(nodes + [node]) == StackSize(nodes) + Size(node)
    ensures StackError(nodes + [node]) == FirstError(node).Or(StackError(nodes))
  {
    assert (dirs + [path])[..|dirs|] == dirs && (nodes + [node])[..|nodes|] == nodes;
  }

  // ----- the walk -----

  /** The tree has a regular `.toml` file at the path. */
  predicate IsTomlFile(fs: Node, p: Path) {
    p != [] && Lookup(fs, p) == Some(File) && TomlName(p[|p| - 1])
  }

  /** Everything found so far and still to be found, in the state of the walk. */
  ghost predicate Balanced(fs: Node, files: seq<Path>, dirs: seq<Path>, nodes: seq<Node>, at: Path, rest: seq<Entry>) {
    && Stacked(fs, dirs, nodes)
    && multiset(files) + Pending(dirs, nodes) + TomlIn(at, rest) == Toml([], "", fs)
    && FirstError(fs) == FirstErrorIn(rest).Or(StackError(nodes))
  }

  lemma VisitOne(fs: Node, files: seq<Path>, dirs: seq<Path>, nodes: seq<Node>, at: Path, entries: seq<Entry>, k: nat)
    requires k < |entries| && Lookup(fs, at) == Some(Dir(Entries(entries))) && DistinctEntries(entries)
    requires Balanced(fs, files, dirs, nodes, at, entries[k..])
    ensures var e := entries[k];
            var path := at + [e.name];
            && (e.node.Dir? ==> Balanced(fs, files, dirs + [path], nodes + [e.node], at, entries[k + 1..])
                                && StackSize(nodes + [e.node]) == StackSize(nodes) + Size(e.node))
            && (e.node.File? && TomlName(e.name) ==> Balanced(fs, files + [path], dirs, nodes, at, entries[k + 1..]))
            && (!e.node.Dir? && !(e.node.File? && TomlName(e.name)) ==> Balanced(fs, files, dirs, nodes, at, entries[k + 1..]))
            && SizeAll(entries[k..]) == Size(e.node) + SizeAll(entries[k + 1..])
  {
    var e := entries[k];
    var path := at + [e.name];
    assert entries[k..][0] == e && entries[k..][1..] == entries[k + 1..];
    LookupChild(fs, at, entries, k);
    if e.node.Dir? {
      PushDirectory(fs, files, dirs, nodes, at, entries[k..]);
    } else {
      VisitFile(fs, files, dirs, nodes, at, entries[k..]);
    }
  }

  lemma VisitFile(fs: Node, files: seq<Path>, dirs: seq<Path>, nodes: seq<Node>, at: Path, rest: seq<Entry>)
    requires rest != [] && !rest[0].node.Dir? && Balanced(fs, files, dirs, nodes, at, rest)
    ensures var e := rest[0];
            Balanced(fs, if e.node.File? && TomlName(e.name) then files + [at + [e.name]] else files, dirs, nodes, at, rest[1..])
  {
    var e := rest[0];
    var path := at + [e.name];
    assert TomlIn(at, rest) == Toml(path, e.name, e.node) + TomlIn(at, rest[1..]);
    FirstErrorCons(rest);
    if e.node.File? && TomlName(e.name) {
      MoveOver(multiset(files), Pending(dirs, nodes), multiset{path}, TomlIn(at, rest[1..]));
      assert multiset(files + [path]) == multiset(files) + multiset{path};
    } else {
      assert Toml(path, e.name, e.node) == multiset{};
      assert multiset{} + TomlIn(at, rest[1..]) == TomlIn(at, rest[1..]);
    }
  }

  lemma MoveOver(a: multiset<Path>, b: multiset<Path>, c: multiset<Path>, d: multiset<Path>)
    ensures a + b + (c + d) == (a + c) + b + d == a + (b + c) + d
  {
  }

  lemma PushDirectory(fs: Node, files: seq<Path>, dirs: seq<Path>, nodes: seq<Node>, at: Path, rest: seq<Entry>)
    requires rest != [] && rest[0].node.Dir? && UniqueNames(rest[0].node) && Lookup(fs, at + [rest[0].name]) == Some(rest[0].node)
    requires Balanced(fs, files, dirs, nodes, at, rest)
    ensures var e := rest[0];
            Balanced(fs, files, dirs + [at + [e.name]], nodes + [e.node], at, rest[1..]) && StackSize(nodes + [e.node]) == StackSize(nodes) + Size(e.node)
  {
    var e := rest[0];
    var path := at + [e.name];
    Pushed(dirs, nodes, path, e.node);
    FirstErrorCons(rest);
    assert Toml(path, e.name, e.node) == Toml(path, "", e.node);
    assert TomlIn(at, rest) == Toml(path, "", e.node) + TomlIn(at, rest[1..]);
    MoveOver(multiset(files), Pending(dirs, nodes), Toml(path, "", e.node), TomlIn(at, rest[1..]));
  }

  /** The loop over the entries of one directory. */
  method VisitEntries(fs: Node, at: Path, entries: seq<Entry>, files: seq<Path>, dirs: seq<Path>, ghost nodes: seq<Node>)
    returns (files': seq<Path>, dirs': seq<Path>, ghost nodes': seq<Node>)
    requires Lookup(fs, at) == Some(Dir(Entries(entries))) && DistinctEntries(entries)
    requires Balanced(fs, files, dirs, nodes, at, entries)
    ensures Balanced(fs, files', dirs', nodes', at, [])
    ensures StackSize(nodes') <= StackSize(nodes) + SizeAll(entries)
  {
    files', dirs', nodes' := files, dirs, nodes;
    for k := 0 to |entries|
      invariant Balanced(fs, files', dirs', nodes', at, entries[k..])
      invariant StackSize(nodes') + SizeAll(entries[k..]) <= StackSize(nodes) + SizeAll(entries)
    {
      var e := entries[k];
      var path := at + [e.name];
      VisitOne(fs, files', dirs', nodes', at, entries, k);
      if e.node.Dir? {
        dirs', nodes' := dirs' + [path], nodes' + [e.node];
      } else if e.node.File? && TomlName(e.name) {
        files' := files' + [path];
      }
    }
    assert entries[|entries|..] == [];
  }

  lemma PopOne(fs: Node, files: seq<Path>, dirs: seq<Path>, nodes: seq<Node>)
    requires dirs != [] && Balanced(fs, files, dirs, nodes, [], [])
    ensures var n := |dirs| - 1;
            var node := nodes[n];
            && Lookup(fs, dirs[n]) == Some(node) && node.Dir? && UniqueNames(node)
            && StackSize(nodes) == StackSize(nodes[..n]) + Size(node)
            && (node.listing.Missing? ==> Balanced(fs, files, dirs[..n], nodes[..n], [], []))
            && (node.listing.Broken? ==> FirstError(fs) == Some(node.listing.error))
            && (node.listing.Entries? ==> Balanced(fs, files, dirs[..n], nodes[..n], dirs[n], node.listing.entries))
  {
    var n := |dirs| - 1;
    assert TomlIn([], []) == multiset{};
    assert Pending(dirs, nodes) == Pending(dirs[..n], nodes[..n]) + Toml(dirs[n], "", nodes[n]);
  }

  lemma StartOfWalk(fs: Node)
    requires fs.Dir? && UniqueNames(fs)
    ensures Balanced(fs, [], [[]], [fs], [], [])
  {
    Pushed([], [], [], fs);
    var none: seq<Path>, root: Path := [], [];
    assert none + [root] == [root] && [] + [fs] == [fs];
  }

  /** What the walk makes of a tree: it fails exactly when some directory cannot be opened, with the error of the first
      such directory it takes, and otherwise lists every regular `.toml` file once, sorted by path. */
  ghost predicate WalkOutcome(fs: Node, r: Result<seq<Path>, string>) {
    && (r.Ok? <==> Openable(fs))
    && (r.Ok? ==> Sorted(StringsLe, r.value) && NoDuplicates(r.value) && forall p :: p in r.value <==> IsTomlFile(fs, p))
    && (r.Err? ==> FirstError(fs) == Some(r.error))
  }

  /** collect_agent_role_files: the walk ends on every finite tree. A directory that is missing contributes nothing. */
  method CollectAgentRoleFiles(listing: Listing) returns (r: Result<seq<Path>, string>)
    requires UniqueNames(Dir(listing))
    ensures WalkOutcome(Dir(listing), r)
  {
    var fs := Dir(listing);
    var files: seq<Path>, dirs: seq<Path> := [], [[]];
    ghost var nodes := [fs];
    StartOfWalk(fs);
    OpenableMeans(fs);
    while dirs != []
      invariant Balanced(fs, files, dirs, nodes, [], [])
      decreases StackSize(nodes)
    {
      PopOne(fs, files, dirs, nodes);
      var n := |dirs| - 1;
      var dir := dirs[n];
      dirs, nodes := dirs[..n], nodes[..n];
      match ReadDirectory(fs, dir) {
        case Missing =>
        case Broken(e) => return Err(e);
        case Entries(entries) => files, dirs, nodes := VisitEntries(fs, dir, entries, files, dirs, nodes);
      }
    }
    var sorted := Sort(StringsLe, files);
    FoundAndSorted(fs, files);
    r := Ok(sorted);
  }

  lemma FoundAndSorted(fs: Node, files: seq<Path>)
    requires fs.Dir? && UniqueNames(fs) && multiset(files) == Toml([], "", fs)
    ensures var sorted := Sort(StringsLe, files);
            && Sorted(StringsLe, sorted) && NoDuplicates(sorted)
            && forall p :: p in sorted <==> IsTomlFile(fs, p)
  {
    StringOrders();
    SortCorrect(StringsLe, files);
    var sorted := Sort(StringsLe, files);
    forall p ensures p in sorted <==> IsTomlFile(fs, p) {
      TomlCounts([], "", fs, p);
      assert p[0..] == p;
      assert p in sorted <==> p in multiset(sorted);
    }
    forall i, j | 0 <= i < j < |sorted| ensures sorted[i] != sorted[j] {
      RepetitionIsCounted(sorted, i, j);
      TomlCounts([], "", fs, sorted[i]);
    }
  }
}
