/**
 Where a loaded role comes from, said on the declarations and the parsed role files: which of them
 supplies a role of a layer, and from which each field of the loaded role is taken.
 */
module AgentRoleSources {
  import opened Common
  import opened AgentRoles
  import opened AgentRoleLayers

  /** What a layer says about a role: a table in its configuration, a role file, or both. */
  datatype Source = Source(table: Option<Role>, file: Option<RoleFile>, path: Option<string>)

  /** A field of a source: the role file comes before the table. */
  function FromEither<T>(ofFile: Option<T>, ofTable: Option<T>): Option<T> {
    if ofFile.Some? then ofFile else ofTable
  }

  function Told(src: Source): Role {
    Role(
      FromEither(if src.file.Some? then src.file.value.description else None, if src.table.Some? then src.table.value.description else None),
      src.path,
      FromEither(if src.file.Some? then src.file.value.nicknames else None, if src.table.Some? then src.table.value.nicknames else None))
  }

  // ----- one declaration, one file -----

  /** A declaration supplies a role: under its own name, or under the one that its role file resolves to. */
  ghost predicate Declares(parse: Parser, d: Declaration, name: string, src: Source) {
    d.table.Ok? && src.table == Some(d.table.value) && src.path == d.table.value.configFile &&
    if d.table.value.configFile.None? then name == d.name && src.file.None?
    else
      var file := parse(d.table.value.configFile.value, Some(d.name));
      file.Ok? && src.file == Some(file.value) && name == file.value.name
  }

  /** A declaration that cannot be read: its table or its role file is malformed. */
  ghost predicate Unreadable(parse: Parser, d: Declaration, error: string) {
    || d.table == Err(error)
    || (d.table.Ok? && d.table.value.configFile.Some? && parse(d.table.value.configFile.value, Some(d.name)) == Err(error))
  }

  ghost predicate Finds(parse: Parser, path: string, name: string, src: Source) {
    var file := parse(path, None);
    file.Ok? && name == file.value.name && src == Source(None, Some(file.value), Some(path))
  }

  lemma {:induction false} DeclaredIs(parse: Parser, d: Declaration)
    ensures forall name, src :: Declares(parse, d, name, src) ==> ReadDeclared(parse, d) == Ok((name, Told(src)))
    ensures ReadDeclared(parse, d).Ok? ==> exists src :: Declares(parse, d, ReadDeclared(parse, d).value.0, src)
    ensures forall error :: ReadDeclared(parse, d) == Err(error) <==> Unreadable(parse, d, error)
  {
    if ReadDeclared(parse, d).Ok? {
      var table := d.table.value;
      var name := ReadDeclared(parse, d).value.0;
      if table.configFile.None? {
        assert Declares(parse, d, name, Source(Some(table), None, None));
      } else {
        var file := parse(table.configFile.value, Some(d.name)).value;
        assert Declares(parse, d, name, Source(Some(table), Some(file), table.configFile));
      }
    }
  }

  lemma {:induction false} DiscoveredIs(parse: Parser, path: string)
    ensures forall name, src :: Finds(parse, path, name, src) ==> Discovered(parse, path) == Ok((name, Told(src)))
    ensures Discovered(parse, path).Ok? ==> exists src :: Finds(parse, path, Discovered(parse, path).value.0, src)
  {
    if Discovered(parse, path).Ok? {
      var file := parse(path, None).value;
      assert Finds(parse, path, file.name, Source(None, Some(file), Some(path)));
    }
  }

  // ----- one layer -----

  function DeclarationsOf(layer: Layer): seq<Declaration> {
    if layer.agents.Agents? then layer.agents.declarations else []
  }

  /** The first declaration of the name. */
  ghost predicate FirstDeclares(parse: Parser, ds: seq<Declaration>, i: nat, name: string, src: Source) {
    i < |ds| && Declares(parse, ds[i], name, src) && !DeclaredBefore(parse, ds, i, name)
  }

  ghost predicate DeclaredBefore(parse: Parser, ds: seq<Declaration>, i: nat, name: string) {
    exists j, src :: 0 <= j < i && j < |ds| && Declares(parse, ds[j], name, src)
  }

  /** A declaration that can be read names the file. */
  ghost predicate NamesFile(parse: Parser, ds: seq<Declaration>, path: string) {
    exists j, name, src :: 0 <= j < |ds| && Declares(parse, ds[j], name, src) && src.path == Some(path)
  }

  /** The first file of the folder with the name that no declaration names. */
  ghost predicate FirstFinds(parse: Parser, ds: seq<Declaration>, paths: seq<string>, i: nat, name: string, src: Source) {
    i < |paths| && !NamesFile(parse, ds, paths[i]) && Finds(parse, paths[i], name, src) && !FoundBefore(parse, ds, paths, i, name)
  }

  ghost predicate FoundBefore(parse: Parser, ds: seq<Declaration>, paths: seq<string>, i: nat, name: string) {
    exists j, src :: 0 <= j < i && j < |paths| && !NamesFile(parse, ds, paths[j]) && Finds(parse, paths[j], name, src)
  }

  /** What supplies a role of a layer: its first declaration, or else the first file found. */
  ghost predicate Supplies(parse: Parser, layer: Layer, name: string, src: Source) {
    var ds := DeclarationsOf(layer);
    || (exists i :: FirstDeclares(parse, ds, i, name, src))
    || (&& !DeclaredBefore(parse, ds, |ds|, name) && layer.folder.Some? && layer.folder.value.Ok?
        && exists i :: FirstFinds(parse, ds, layer.folder.value.value, i, name, src))
  }

  lemma {:induction false} ReadNames(parse: Parser, d: Declaration, name: string)
    ensures (exists src :: Declares(parse, d, name, src)) <==> ReadDeclared(parse, d).Ok? && ReadDeclared(parse, d).value.0 == name
  {
    DeclaredIs(parse, d);
  }

  lemma {:induction false} SameEarlier(parse: Parser, ds: seq<Declaration>, i: nat, name: string)
    requires i <= |ds|
    ensures DeclaredBefore(parse, ds, i, name) <==> ReadBefore(DeclaredReadings(parse, ds), i, name)
  {
    var all := DeclaredReadings(parse, ds);
    DeclaredAt(parse, ds);
    if j, src :| 0 <= j < i && j < |ds| && Declares(parse, ds[j], name, src) {
      ReadNames(parse, ds[j], name);
      assert all[j].Ok?;
    }
    if j :| 0 <= j < i && all[j].Ok? && all[j].value.0 == name {
      ReadNames(parse, ds[j], name);
    }
  }

  lemma {:induction false} FirstDeclaredIsHeld(parse: Parser, ds: seq<Declaration>, i: nat, name: string, src: Source)
    requires FirstDeclares(parse, ds, i, name, src)
    ensures var roles := KeepFirst(DeclaredReadings(parse, ds)); name in roles && roles[name] == Told(src)
  {
    var all := DeclaredReadings(parse, ds);
    DeclaredAt(parse, ds);
    DeclaredIs(parse, ds[i]);
    SameEarlier(parse, ds, i, name);
    KeepFirstHolds(all);
    assert all[i] == Ok((name, Told(src)));
    assert ReadBefore(all, |all|, name);
    var k :| 0 <= k < |all| && all[k] == Ok((name, KeepFirst(all)[name])) && !ReadBefore(all, k, name);
    FirstIsOne(all, i, k, name);
  }

  lemma FirstIsOne(all: seq<Result<(string, Role), string>>, i: nat, k: nat, name: string)
    requires i < |all| && k < |all| && all[i].Ok? && all[k].Ok? && all[i].value.0 == name && all[k].value.0 == name
    requires !ReadBefore(all, i, name) && !ReadBefore(all, k, name)
    ensures i == k
  {
  }

  lemma {:induction false} HeldIsDeclared(parse: Parser, ds: seq<Declaration>, name: string)
    requires name in KeepFirst(DeclaredReadings(parse, ds))
    ensures exists i, src :: FirstDeclares(parse, ds, i, name, src)
  {
    var all := DeclaredReadings(parse, ds);
    DeclaredAt(parse, ds);
    KeepFirstHolds(all);
    var i :| 0 <= i < |all| && all[i] == Ok((name, KeepFirst(all)[name])) && !ReadBefore(all, i, name);
    DeclaredIs(parse, ds[i]);
    SameEarlier(parse, ds, i, name);
    var src :| Declares(parse, ds[i], name, src);
    assert FirstDeclares(parse, ds, i, name, src);
  }

  lemma {:induction false} FilesNamed(parse: Parser, ds: seq<Declaration>, path: string)
    ensures path in DeclaredFiles(DeclaredReadings(parse, ds)) <==> NamesFile(parse, ds, path)
  {
    if ds != [] {
      var n := |ds| - 1;
      FilesNamed(parse, ds[..n], path);
      KeepFirstSnoc(DeclaredReadings(parse, ds[..n]), ReadDeclared(parse, ds[n]));
      OneMoreNames(parse, ds, path);
    }
  }

  lemma {:induction false} OneMoreNames(parse: Parser, ds: seq<Declaration>, path: string)
    requires ds != []
    ensures var n := |ds| - 1;
            NamesFile(parse, ds, path) <==>
              NamesFile(parse, ds[..n], path) || (ReadDeclared(parse, ds[n]).Ok? && ReadDeclared(parse, ds[n]).value.1.configFile == Some(path))
  {
    var n := |ds| - 1;
    DeclaredIs(parse, ds[n]);
    if NamesFile(parse, ds, path) {
      var j, name, src :| 0 <= j < |ds| && Declares(parse, ds[j], name, src) && src.path == Some(path);
      if j < n { assert ds[..n][j] == ds[j]; }
    }
    if NamesFile(parse, ds[..n], path) {
      var j, name, src :| 0 <= j < n && Declares(parse, ds[..n][j], name, src) && src.path == Some(path);
      assert ds[j] == ds[..n][j];
    }
    if ReadDeclared(parse, ds[n]).Ok? && ReadDeclared(parse, ds[n]).value.1.configFile == Some(path) {
      var src :| Declares(parse, ds[n], ReadDeclared(parse, ds[n]).value.0, src);
      assert src.path == Some(path);
    }
  }

  ghost predicate AllNamed(parse: Parser, ds: seq<Declaration>, files: set<string>) {
    forall path :: path in files <==> NamesFile(parse, ds, path)
  }

  lemma {:induction false} FoundBeforeSnoc(parse: Parser, ds: seq<Declaration>, paths: seq<string>, name: string)
    requires paths != []
    ensures var n := |paths| - 1;
            && (forall i: nat :: i <= n ==> (FoundBefore(parse, ds, paths, i, name) <==> FoundBefore(parse, ds, paths[..n], i, name)))
            && (FoundBefore(parse, ds, paths, n + 1, name) <==>
                  FoundBefore(parse, ds, paths[..n], n, name)
                  || (!NamesFile(parse, ds, paths[n]) && Discovered(parse, paths[n]).Ok? && Discovered(parse, paths[n]).value.0 == name))
  {
    var n := |paths| - 1;
    var front := paths[..n];
    assert forall j :: 0 <= j < n ==> front[j] == paths[j];
    DiscoveredIs(parse, paths[n]);
  }

  function Found(parse: Parser, files: set<string>, paths: seq<string>): Roles {
    KeepFirst(FolderReadings(parse, paths, files))
  }

  lemma {:induction false} FoundSnoc(parse: Parser, files: set<string>, paths: seq<string>)
    requires paths != []
    ensures var n := |paths| - 1;
            Found(parse, files, paths) ==
              if paths[n] in files then Found(parse, files, paths[..n]) else KeepStep(Found(parse, files, paths[..n]), Discovered(parse, paths[n]))
  {
    var n := |paths| - 1;
    var before := FolderReadings(parse, paths[..n], files);
    assert before + [] == before;
    KeepFirstSnoc(before, Discovered(parse, paths[n]));
  }

  lemma {:induction false} FoundNames(parse: Parser, ds: seq<Declaration>, files: set<string>, paths: seq<string>, name: string)
    requires AllNamed(parse, ds, files)
    ensures name in Found(parse, files, paths) <==> FoundBefore(parse, ds, paths, |paths|, name)
  {
    if paths != [] {
      FoundNames(parse, ds, files, paths[..|paths| - 1], name);
      FoundBeforeSnoc(parse, ds, paths, name);
      FoundSnoc(parse, files, paths);
    }
  }

  lemma {:induction false} FoundIsHeld(parse: Parser, ds: seq<Declaration>, files: set<string>, paths: seq<string>, i: nat, name: string, src: Source)
    requires AllNamed(parse, ds, files) && FirstFinds(parse, ds, paths, i, name, src)
    ensures name in Found(parse, files, paths) && Found(parse, files, paths)[name] == Told(src)
  {
    var n := |paths| - 1;
    var front := paths[..n];
    FoundBeforeSnoc(parse, ds, paths, name);
    FoundSnoc(parse, files, paths);
    if i < n {
      assert front[i] == paths[i];
      FoundIsHeld(parse, ds, files, front, i, name, src);
    } else {
      DiscoveredIs(parse, paths[n]);
      FoundNames(parse, ds, files, front, name);
    }
  }

  lemma {:induction false} SomethingIsFirst(parse: Parser, ds: seq<Declaration>, paths: seq<string>, n: nat, name: string)
    requires n <= |paths| && FoundBefore(parse, ds, paths, n, name)
    ensures exists i, src :: FirstFinds(parse, ds, paths, i, name, src)
  {
    var j, src :| 0 <= j < n && !NamesFile(parse, ds, paths[j]) && Finds(parse, paths[j], name, src);
    if FoundBefore(parse, ds, paths, j, name) {
      SomethingIsFirst(parse, ds, paths, j, name);
    } else {
      assert FirstFinds(parse, ds, paths, j, name, src);
    }
  }

  /** The roles of a layer are those it supplies, each as told by what supplies it. */
  lemma {:induction false} LayerSupplies(parse: Parser, layer: Layer, name: string)
    requires LayerRoles(parse, layer).Ok?
    ensures var roles := LayerRoles(parse, layer).value;
            && (name in roles ==> exists src :: Supplies(parse, layer, name, src))
            && (forall src :: Supplies(parse, layer, name, src) ==> name in roles && roles[name] == Told(src))
  {
    var ds := DeclarationsOf(layer);
    var declared := KeepFirst(DeclaredReadings(parse, ds));
    assert Readings(parse, layer.agents) == DeclaredReadings(parse, ds);
    DeclaredFirst(parse, ds, name);
    if name in declared {
      var i, src :| FirstDeclares(parse, ds, i, name, src);
      assert Supplies(parse, layer, name, src);
    }
    if layer.folder.Some? {
      var paths := layer.folder.value.value;
      var files := DeclaredFiles(DeclaredReadings(parse, ds));
      FoundFirst(parse, ds, paths, name);
      if name !in declared && name in Found(parse, files, paths) {
        var i, src :| FirstFinds(parse, ds, paths, i, name, src);
        assert Supplies(parse, layer, name, src);
      }
    }
  }

  lemma {:induction false} FoundFirst(parse: Parser, ds: seq<Declaration>, paths: seq<string>, name: string)
    ensures var found := Found(parse, DeclaredFiles(DeclaredReadings(parse, ds)), paths);
            && (name in found ==> exists i, src :: FirstFinds(parse, ds, paths, i, name, src))
            && (forall i: nat, src :: FirstFinds(parse, ds, paths, i, name, src) ==> name in found && found[name] == Told(src))
  {
    var files := DeclaredFiles(DeclaredReadings(parse, ds));
    forall path ensures path in files <==> NamesFile(parse, ds, path) { FilesNamed(parse, ds, path); }
    FoundNames(parse, ds, files, paths, name);
    if name in Found(parse, files, paths) { SomethingIsFirst(parse, ds, paths, |paths|, name); }
    forall i: nat, src | FirstFinds(parse, ds, paths, i, name, src) ensures name in Found(parse, files, paths) && Found(parse, files, paths)[name] == Told(src) {
      FoundIsHeld(parse, ds, files, paths, i, name, src);
    }
  }

  lemma {:induction false} DeclaredFirst(parse: Parser, ds: seq<Declaration>, name: string)
    ensures var declared := KeepFirst(DeclaredReadings(parse, ds));
            && (name in declared <==> DeclaredBefore(parse, ds, |ds|, name))
            && (name in declared ==> exists i, src :: FirstDeclares(parse, ds, i, name, src))
            && (forall i, src :: FirstDeclares(parse, ds, i, name, src) ==> name in declared && declared[name] == Told(src))
  {
    var all := DeclaredReadings(parse, ds);
    DeclaredAt(parse, ds);
    KeepFirstHolds(all);
    SameEarlier(parse, ds, |ds|, name);
    if name in KeepFirst(all) { HeldIsDeclared(parse, ds, name); }
    forall i, src | FirstDeclares(parse, ds, i, name, src) ensures name in KeepFirst(all) && KeepFirst(all)[name] == Told(src) {
      FirstDeclaredIsHeld(parse, ds, i, name, src);
    }
  }

  // ----- all layers -----

  /** The layer supplies the role with a value for the field. */
  ghost predicate Gives<T>(parse: Parser, layer: Layer, name: string, field: Role -> Option<T>, value: Option<T>) {
    value.Some? && exists src :: Supplies(parse, layer, name, src) && field(Told(src)) == value
  }

  ghost predicate Silent<T>(parse: Parser, layer: Layer, name: string, field: Role -> Option<T>) {
    forall src :: Supplies(parse, layer, name, src) ==> field(Told(src)).None?
  }

  /** The value is that of the highest layer, from `from` up, that gives one. */
  ghost predicate HighestGives<T>(parse: Parser, layers: seq<Layer>, name: string, from: nat, field: Role -> Option<T>, value: Option<T>) {
    if value.None? then forall j :: from <= j < |layers| ==> Silent(parse, layers[j], name, field)
    else exists i :: from <= i < |layers| && Gives(parse, layers[i], name, field, value) && forall j :: i < j < |layers| ==> Silent(parse, layers[j], name, field)
  }

  lemma {:induction false} SetsMeans<T>(parse: Parser, layer: Layer, name: string, field: Role -> Option<T>)
    requires LayerRoles(parse, layer).Ok?
    ensures var roles := LayerRoles(parse, layer).value;
            && (Sets(roles, name, field) ==> Gives(parse, layer, name, field, field(roles[name])))
            && (!Sets(roles, name, field) <==> Silent(parse, layer, name, field))
  {
    LayerSupplies(parse, layer, name);
  }

  lemma {:induction false} HighestMeans<T>(parse: Parser, layers: seq<Layer>, name: string, from: nat, field: Role -> Option<T>)
    requires Readable(parse, layers)
    ensures HighestGives(parse, layers, name, from, field, Highest(AllLayerRoles(parse, layers), name, from, field))
  {
    var all := AllLayerRoles(parse, layers);
    HighestIsHighest(all, name, from, field);
    forall j | 0 <= j < |layers|
      ensures Sets(all[j], name, field) ==> Gives(parse, layers[j], name, field, field(all[j][name]))
      ensures !Sets(all[j], name, field) <==> Silent(parse, layers[j], name, field)
    {
      SetsMeans(parse, layers[j], name, field);
    }
  }

  const DescriptionOf: Role -> Option<string> := (r: Role) => r.description
  const ConfigFileOf: Role -> Option<string> := (r: Role) => r.configFile
  const NicknamesOf: Role -> Option<seq<string>> := (r: Role) => r.nicknames

  ghost predicate DescribedAt(parse: Parser, layers: seq<Layer>, i: nat, name: string) {
    i < |layers| && !Silent(parse, layers[i], name, DescriptionOf)
  }

  /** The lowest layer that describes the role. */
  ghost predicate LowestDescribing(parse: Parser, layers: seq<Layer>, i: nat, name: string) {
    DescribedAt(parse, layers, i, name) && forall j: nat :: j < i ==> !DescribedAt(parse, layers, j, name)
  }

  lemma {:induction false} DescribesMeans(parse: Parser, layers: seq<Layer>, i: nat, name: string)
    requires Readable(parse, layers) && i < |layers|
    ensures Describes(AllLayerRoles(parse, layers)[i], name) <==> DescribedAt(parse, layers, i, name)
  {
    SetsMeans(parse, layers[i], name, DescriptionOf);
  }

  /** A role is loaded exactly when some layer describes it, in a declaration or a role file. Each of its fields is the one
      given by the highest layer at or above the lowest that describes it, and within a layer by the role file before the table. */
  ghost predicate LoadedFrom(parse: Parser, layers: seq<Layer>, roles: Roles, name: string) {
    && (name in roles <==> exists i :: DescribedAt(parse, layers, i, name))
    && (name in roles ==> exists from :: LowestDescribing(parse, layers, from, name) && FieldsFrom(parse, layers, name, from, roles[name]))
  }

  lemma {:induction false} LoadedMeans(parse: Parser, layers: seq<Layer>, name: string)
    requires Readable(parse, layers)
    ensures LoadedFrom(parse, layers, Fold(AllLayerRoles(parse, layers)), name)
  {
    var all := AllLayerRoles(parse, layers);
    FoldClosedForm(all, name);
    forall i: nat | i < |layers| ensures Describes(all[i], name) <==> DescribedAt(parse, layers, i, name) { DescribesMeans(parse, layers, i, name); }
    if Described(all, name) {
      var from := FirstDescribing(all, name);
      assert forall j :: 0 <= j < from ==> all[..from][j] == all[j];
      ClosedFormMeans(parse, layers, name);
      assert LowestDescribing(parse, layers, from, name);
    }
  }

  ghost predicate FieldsFrom(parse: Parser, layers: seq<Layer>, name: string, from: nat, role: Role) {
    && HighestGives(parse, layers, name, from, DescriptionOf, role.description)
    && HighestGives(parse, layers, name, from, ConfigFileOf, role.configFile)
    && HighestGives(parse, layers, name, from, NicknamesOf, role.nicknames)
  }

  lemma {:induction false} ClosedFormMeans(parse: Parser, layers: seq<Layer>, name: string)
    requires Readable(parse, layers) && Described(AllLayerRoles(parse, layers), name)
    ensures var all := AllLayerRoles(parse, layers); FieldsFrom(parse, layers, name, FirstDescribing(all, name), ClosedForm(all, name))
  {
    var all := AllLayerRoles(parse, layers);
    var from := FirstDescribing(all, name);
    HighestMeans(parse, layers, name, from, DescriptionOf);
    HighestMeans(parse, layers, name, from, ConfigFileOf);
    HighestMeans(parse, layers, name, from, NicknamesOf);
    SameField(all, name, from, DescriptionOf, (r: Role) => r.description);
    SameField(all, name, from, ConfigFileOf, (r: Role) => r.configFile);
    SameField(all, name, from, NicknamesOf, (r: Role) => r.nicknames);
  }

  lemma {:induction false} SameField<T>(layers: seq<Roles>, name: string, from: nat, f: Role -> Option<T>, g: Role -> Option<T>)
    requires forall r :: f(r) == g(r)
    ensures Highest(layers, name, from, f) == Highest(layers, name, from, g)
  {
    if |layers| > from { SameField(layers[..|layers| - 1], name, from, f, g); }
  }

  // ----- without layers -----

  /** The declaration supplies a role with a description, under a name that none before it has. */
  ghost predicate StrictlyDeclares(parse: Parser, ds: seq<Declaration>, n: nat) {
    exists name, src :: FirstDeclares(parse, ds, n, name, src) && Told(src).description.Some?
  }

  /** The first declaration that does not, and its error: that of its table or file, or else a missing description, or else a
      name that is taken. */
  ghost predicate FirstProblem(parse: Parser, ds: seq<Declaration>, n: nat, error: string) {
    && n < |ds| && (forall m: nat :: m < n ==> StrictlyDeclares(parse, ds, m))
    && (|| Unreadable(parse, ds[n], error)
        || exists name, src :: Declares(parse, ds[n], name, src) && Rejects(parse, ds, n, name, src, error))
  }

  ghost predicate Rejects(parse: Parser, ds: seq<Declaration>, n: nat, name: string, src: Source, error: string) {
    if Told(src).description.None? then error == MissingDescription(name)
    else DeclaredBefore(parse, ds, n, name) && error == DuplicateName(name)
  }

  lemma {:induction false} GoodReading(parse: Parser, ds: seq<Declaration>, n: nat, m: nat)
    requires m < n <= |DeclaredReadings(parse, ds)| && StrictlyGood(DeclaredReadings(parse, ds)[..n])
    ensures StrictlyDeclares(parse, ds, m)
  {
    var all := DeclaredReadings(parse, ds);
    DeclaredAt(parse, ds);
    assert all[..n][m] == all[m];
    DeclaredIs(parse, ds[m]);
    var name := all[m].value.0;
    var src :| Declares(parse, ds[m], name, src);
    SameEarlier(parse, ds, m, name);
    assert forall j :: 0 <= j < n ==> all[..n][j] == all[j];
    assert FirstDeclares(parse, ds, m, name, src);
  }

  lemma {:induction false} FailureMeans(parse: Parser, ds: seq<Declaration>, n: nat, error: string)
    requires FailsAt(DeclaredReadings(parse, ds), n, error)
    ensures FirstProblem(parse, ds, n, error)
  {
    var all := DeclaredReadings(parse, ds);
    DeclaredAt(parse, ds);
    DeclaredIs(parse, ds[n]);
    forall m: nat | m < n ensures StrictlyDeclares(parse, ds, m) { GoodReading(parse, ds, n, m); }
    if all[n].Ok? {
      var name := all[n].value.0;
      var src :| Declares(parse, ds[n], name, src);
      SameEarlier(parse, ds, n, name);
      assert Rejects(parse, ds, n, name, src, error);
    }
  }

  /** The roles of the effective configuration: each declaration under its name, as told by it. */
  ghost predicate DeclaredAlone(parse: Parser, ds: seq<Declaration>, roles: Roles, name: string) {
    && (name in roles <==> DeclaredBefore(parse, ds, |ds|, name))
    && (forall i, src :: FirstDeclares(parse, ds, i, name, src) ==> name in roles && roles[name] == Told(src))
  }

  /** load_agent_roles: the stack of layers if there is one, otherwise the effective configuration,
      which is read strictly and never warns. */
  method LoadAgentRoles(parse: Parser, effective: seq<Declaration>, layers: seq<Layer>)
    returns (r: Result<Roles, string>, warnings: seq<Warning>)
    ensures layers == [] ==> (r.Ok? <==> forall n: nat :: n < |effective| ==> StrictlyDeclares(parse, effective, n))
    ensures layers == [] && r.Ok? ==> forall name :: DeclaredAlone(parse, effective, r.value, name)
    ensures layers == [] && r.Err? ==> exists n :: FirstProblem(parse, effective, n, r.error)
    ensures layers != [] ==> (r.Ok? <==> Readable(parse, layers))
    ensures layers != [] && r.Ok? ==> forall name :: LoadedFrom(parse, layers, r.value, name)
    ensures layers != [] && r.Err? ==> exists i :: FailsAtLayer(parse, layers, i, r.error)
    ensures warnings == LayersWarnings(parse, layers)
  {
    if layers == [] {
      r := LoadWithoutLayers(parse, effective);
      warnings := [];
      AloneMeans(parse, effective, r);
    } else {
      r, warnings := LoadLayers(parse, layers);
      if r.Ok? {
        forall name ensures LoadedFrom(parse, layers, r.value, name) { LoadedMeans(parse, layers, name); }
      }
    }
  }

  lemma {:induction false} AllStrict(parse: Parser, ds: seq<Declaration>)
    requires StrictlyGood(DeclaredReadings(parse, ds))
    ensures forall n: nat :: n < |ds| ==> StrictlyDeclares(parse, ds, n)
  {
    var all := DeclaredReadings(parse, ds);
    DeclaredAt(parse, ds);
    assert all[..|ds|] == all;
    forall n: nat | n < |ds| ensures StrictlyDeclares(parse, ds, n) {
      GoodReading(parse, ds, |ds|, n);
    }
  }

  lemma {:induction false} AloneMeans(parse: Parser, ds: seq<Declaration>, r: Result<Roles, string>)
    requires r.Ok? <==> StrictlyGood(DeclaredReadings(parse, ds))
    requires r.Ok? ==> r.value == Fold([KeepFirst(DeclaredReadings(parse, ds))])
    requires r.Err? ==> exists n :: FailsAt(DeclaredReadings(parse, ds), n, r.error)
    ensures r.Ok? <==> forall n: nat :: n < |ds| ==> StrictlyDeclares(parse, ds, n)
    ensures r.Ok? ==> forall name :: DeclaredAlone(parse, ds, r.value, name)
    ensures r.Err? ==> exists n :: FirstProblem(parse, ds, n, r.error)
  {
    var all := DeclaredReadings(parse, ds);
    DeclaredAt(parse, ds);
    if r.Ok? {
      AllStrict(parse, ds);
      SingleLayer(all);
      forall name ensures DeclaredAlone(parse, ds, r.value, name) { DeclaredFirst(parse, ds, name); }
    } else {
      var n :| FailsAt(all, n, r.error);
      FailureMeans(parse, ds, n, r.error);
      ProblemIsNotStrict(parse, ds, n, r.error);
    }
  }

  lemma {:induction false} ProblemIsNotStrict(parse: Parser, ds: seq<Declaration>, n: nat, error: string)
    requires FirstProblem(parse, ds, n, error)
    ensures !StrictlyDeclares(parse, ds, n)
  {
    DeclaredIs(parse, ds[n]);
  }
}
