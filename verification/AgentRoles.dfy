/**
 Loading agent roles from configuration layers, lowest first. A layer declares roles in its
 configuration and may hold role files in a folder; a role of a higher layer inherits what it leaves
 open from the lower ones, and a role that still has no description is left out.
 */
module AgentRoles {
  import opened Common
  import opened Sorting

  datatype Role = Role(description: Option<string>, configFile: Option<string>, nicknames: Option<seq<string>>)

  type Roles = map<string, Role>

  /** What a role file says once parsed; `name` is already resolved against the hint. */
  datatype RoleFile = RoleFile(name: string, description: Option<string>, nicknames: Option<seq<string>>)

  /** A role as declared in the configuration: its table, or the error found in it. */
  datatype Declaration = Declaration(name: string, table: Result<Role, string>)

  datatype Agents = NoAgents | Malformed(error: string) | Agents(declarations: seq<Declaration>)

  /** A layer: its `agents` table, and the role files found in its folder, if it has one. */
  datatype Layer = Layer(agents: Agents, folder: Option<Result<seq<string>, string>>)

  /** Reading a role file, with the name to fall back on. */
  type Parser = (string, Option<string>) -> Result<RoleFile, string>

  datatype Warning = BadDefinition(error: string) | Duplicate(name: string) | NoDescription(name: string)

  // ----- one layer -----

  /** read_declared_role: a role file named by the declaration may rename it, and what the file
      says comes before what the table says. */
  function ReadDeclared(parse: Parser, d: Declaration): Result<(string, Role), string> {
    match d.table
    case Err(e) => Err(e)
    case Ok(role) =>
      if role.configFile.None? then Ok((d.name, role))
      else
        match parse(role.configFile.value, Some(d.name))
        case Err(e) => Err(e)
        case Ok(file) => Ok((file.name, Role(file.description.Or(role.description), role.configFile, file.nicknames.Or(role.nicknames))))
  }

  function Discovered(parse: Parser, path: string): Result<(string, Role), string> {
    match parse(path, None)
    case Err(e) => Err(e)
    case Ok(file) => Ok((file.name, Role(file.description, Some(path), file.nicknames)))
  }

  /** The earliest reading of a name. */
  ghost predicate FirstReading(readings: seq<Result<(string, Role), string>>, name: string, role: Role) {
    exists i :: 0 <= i < |readings| && readings[i] == Ok((name, role)) && !ReadBefore(readings, i, name)
  }

  ghost predicate ReadBefore(readings: seq<Result<(string, Role), string>>, i: nat, name: string) {
    exists j :: 0 <= j < i && j < |readings| && readings[j].Ok? && readings[j].value.0 == name
  }

  /** A map holds, for every name that was read, its earliest reading. */
  ghost predicate HoldsFirst(readings: seq<Result<(string, Role), string>>, roles: Roles) {
    && (forall name :: name in roles <==> ReadBefore(readings, |readings|, name))
    && (forall name :: name in roles ==> FirstReading(readings, name, roles[name]))
  }

  /** Take readings in order; the first of each name stays. */
  function KeepFirst(readings: seq<Result<(string, Role), string>>): Roles {
    if readings == [] then map[]
    else KeepStep(KeepFirst(readings[..|readings| - 1]), readings[|readings| - 1])
  }

  function KeepStep(roles: Roles, reading: Result<(string, Role), string>): Roles {
    if reading.Ok? && reading.value.0 !in roles then roles[reading.value.0 := reading.value.1] else roles
  }

  /** The warning about a reading that is not kept. */
  function Complaint(roles: Roles, reading: Result<(string, Role), string>): seq<Warning> {
    if reading.Err? then [BadDefinition(reading.error)]
    else if reading.value.0 in roles then [Duplicate(reading.value.0)]
    else []
  }

  /** The warnings about a sequence of readings, in order. */
  function Complaints(readings: seq<Result<(string, Role), string>>): seq<Warning> {
    if readings == [] then []
    else
      var n := |readings| - 1;
      Complaints(readings[..n]) + Complaint(KeepFirst(readings[..n]), readings[n])
  }

  /** Every reading is either kept or complained about, and never both. */
  lemma {:induction false} KeptOrWarned(readings: seq<Result<(string, Role), string>>)
    ensures |KeepFirst(readings)| + |Complaints(readings)| == |readings|
  {
    if readings != [] {
      var n := |readings| - 1;
      KeptOrWarned(readings[..n]);
      GrowsByOne(KeepFirst(readings[..n]), readings[n]);
    }
  }

  lemma GrowsByOne(roles: Roles, reading: Result<(string, Role), string>)
    ensures |KeepStep(roles, reading)| + |Complaint(roles, reading)| == |roles| + 1
  {
  }

  /** A warning names a reading that failed, or a name that was read before. */
  ghost predicate Warns(readings: seq<Result<(string, Role), string>>, i: nat, w: Warning) {
    i < |readings| &&
    match readings[i] {
      case Err(e) => w == BadDefinition(e)
      case Ok((name, _)) => w == Duplicate(name) && ReadBefore(readings, i, name)
    }
  }

  lemma {:induction false} ComplaintsMean(readings: seq<Result<(string, Role), string>>, w: Warning)
    ensures w in Complaints(readings) <==> exists i :: Warns(readings, i, w)
  {
    if readings == [] {
      assert forall i :: !Warns(readings, i, w);
    } else {
      var n := |readings| - 1;
      var before := readings[..n];
      ComplaintsMean(before, w);
      KeepFirstHolds(before);
      forall i | 0 <= i < n ensures Warns(before, i, w) <==> Warns(readings, i, w) {
        if readings[i].Ok? { EarlierSame(before, readings, i, readings[i].value.0); }
      }
      if readings[n].Ok? { EarlierSame(before, readings, n, readings[n].value.0); }
      assert w in Complaint(KeepFirst(before), readings[n]) <==> Warns(readings, n, w);
      if w in Complaints(before) {
        var i :| Warns(before, i, w);
        assert Warns(readings, i, w);
      }
      if i :| Warns(readings, i, w) && i != n {
        assert Warns(before, i, w);
      }
    }
  }

  function DeclaredReadings(parse: Parser, ds: seq<Declaration>): seq<Result<(string, Role), string>> {
    if ds == [] then [] else DeclaredReadings(parse, ds[..|ds| - 1]) + [ReadDeclared(parse, ds[|ds| - 1])]
  }

  /** The files that declared roles name; a role file in the folder is skipped if it is one of them. */
  function DeclaredFiles(readings: seq<Result<(string, Role), string>>): set<string> {
    if readings == [] then {}
    else
      var n := |readings| - 1;
      DeclaredFiles(readings[..n]) +
      if readings[n].Ok? && readings[n].value.1.configFile.Some? then {readings[n].value.1.configFile.value} else {}
  }

  function FolderReadings(parse: Parser, paths: seq<string>, declared: set<string>): seq<Result<(string, Role), string>> {
    if paths == [] then []
    else
      var n := |paths| - 1;
      FolderReadings(parse, paths[..n], declared) + if paths[n] in declared then [] else [Discovered(parse, paths[n])]
  }

  /** Every name is held with its earliest reading. */
  lemma {:induction false} KeepFirstHolds(readings: seq<Result<(string, Role), string>>)
    ensures HoldsFirst(readings, KeepFirst(readings))
  {
    if readings != [] {
      var n := |readings| - 1;
      KeepFirstHolds(readings[..n]);
      HoldOne(readings, n, KeepFirst(readings[..n]));
      assert readings[..n + 1] == readings;
    }
  }

  lemma HoldOne(readings: seq<Result<(string, Role), string>>, n: nat, roles: Roles)
    requires n < |readings| && HoldsFirst(readings[..n], roles)
    ensures readings[n].Err? ==> HoldsFirst(readings[..n + 1], roles)
    ensures readings[n].Ok? && readings[n].value.0 in roles ==> HoldsFirst(readings[..n + 1], roles)
    ensures readings[n].Ok? && readings[n].value.0 !in roles ==>
              HoldsFirst(readings[..n + 1], roles[readings[n].value.0 := readings[n].value.1])
  {
    var before, after := readings[..n], readings[..n + 1];
    assert forall j :: 0 <= j < n ==> after[j] == before[j];
    assert after[n] == readings[n];
    forall name ensures ReadBefore(after, n + 1, name) <==> ReadBefore(before, n, name) || (readings[n].Ok? && readings[n].value.0 == name) {
      if readings[n].Ok? && readings[n].value.0 == name { assert after[n].Ok?; }
      if ReadBefore(before, n, name) {
        var j :| 0 <= j < n && before[j].Ok? && before[j].value.0 == name;
        assert after[j].Ok?;
      }
      if ReadBefore(after, n + 1, name) {
        var j :| 0 <= j < n + 1 && after[j].Ok? && after[j].value.0 == name;
        if j < n { assert before[j].Ok?; }
      }
    }
    forall name, role | FirstReading(before, name, role) ensures FirstReading(after, name, role) {
      var i :| 0 <= i < n && before[i] == Ok((name, role)) && !ReadBefore(before, i, name);
      EarlierSame(before, after, i, name);
      assert after[i] == Ok((name, role));
    }
    if readings[n].Ok? && readings[n].value.0 !in roles {
      var (name, role) := readings[n].value;
      EarlierSame(before, after, n, name);
      assert after[n] == Ok((name, role)) && !ReadBefore(after, n, name);
    }
  }

  lemma EarlierSame(before: seq<Result<(string, Role), string>>, after: seq<Result<(string, Role), string>>, i: nat, name: string)
    requires i <= |before| && before <= after
    ensures ReadBefore(before, i, name) <==> ReadBefore(after, i, name)
  {
    if ReadBefore(before, i, name) {
      var j :| 0 <= j < i && before[j].Ok? && before[j].value.0 == name;
      assert after[j].Ok?;
    }
    if ReadBefore(after, i, name) {
      var j :| 0 <= j < i && after[j].Ok? && after[j].value.0 == name;
      assert before[j].Ok?;
    }
  }

  lemma {:induction false} DeclaredStep(parse: Parser, ds: seq<Declaration>, n: nat)
    requires n < |ds|
    ensures var before, reading := DeclaredReadings(parse, ds[..n]), ReadDeclared(parse, ds[n]);
            var after := DeclaredReadings(parse, ds[..n + 1]);
            && KeepFirst(after) == KeepStep(KeepFirst(before), reading)
            && Complaints(after) == Complaints(before) + Complaint(KeepFirst(before), reading)
            && DeclaredFiles(after) == DeclaredFiles(before) +
                 if reading.Ok? && reading.value.1.configFile.Some? then {reading.value.1.configFile.value} else {}
  {
    assert ds[..n + 1][..n] == ds[..n];
    KeepFirstSnoc(DeclaredReadings(parse, ds[..n]), ReadDeclared(parse, ds[n]));
  }

  /** The declared roles of a layer. */
  method DeclaredRoles(parse: Parser, ds: seq<Declaration>) returns (roles: Roles, files: set<string>, warnings: seq<Warning>)
    ensures roles == KeepFirst(DeclaredReadings(parse, ds))
    ensures files == DeclaredFiles(DeclaredReadings(parse, ds))
    ensures warnings == Complaints(DeclaredReadings(parse, ds))
  {
    roles, files, warnings := map[], {}, [];
    for n := 0 to |ds|
      invariant roles == KeepFirst(DeclaredReadings(parse, ds[..n]))
      invariant files == DeclaredFiles(DeclaredReadings(parse, ds[..n]))
      invariant warnings == Complaints(DeclaredReadings(parse, ds[..n]))
    {
      var reading := ReadDeclared(parse, ds[n]);
      DeclaredStep(parse, ds, n);
      if reading.Ok? && reading.value.1.configFile.Some? {
        files := files + {reading.value.1.configFile.value};
      }
      warnings := warnings + Complaint(roles, reading);
      roles := KeepStep(roles, reading);
    }
    assert ds[..|ds|] == ds;
  }

  lemma {:induction false} FolderSnoc(parse: Parser, paths: seq<string>, n: nat, declared: set<string>)
    requires n < |paths|
    ensures FolderReadings(parse, paths[..n + 1], declared) ==
              if paths[n] in declared then FolderReadings(parse, paths[..n], declared)
              else FolderReadings(parse, paths[..n], declared) + [Discovered(parse, paths[n])]
  {
    assert paths[..n + 1][..n] == paths[..n];
  }

  lemma KeepFirstSnoc(readings: seq<Result<(string, Role), string>>, reading: Result<(string, Role), string>)
    ensures KeepFirst(readings + [reading]) == KeepStep(KeepFirst(readings), reading)
    ensures Complaints(readings + [reading]) == Complaints(readings) + Complaint(KeepFirst(readings), reading)
    ensures DeclaredFiles(readings + [reading]) == DeclaredFiles(readings) +
              if reading.Ok? && reading.value.1.configFile.Some? then {reading.value.1.configFile.value} else {}
  {
    assert (readings + [reading])[..|readings|] == readings;
  }

  /** discover_agent_roles_in_dir */
  method DiscoverRoles(parse: Parser, paths: seq<string>, declared: set<string>) returns (roles: Roles, warnings: seq<Warning>)
    ensures roles == KeepFirst(FolderReadings(parse, paths, declared))
    ensures warnings == Complaints(FolderReadings(parse, paths, declared))
  {
    roles, warnings := map[], [];
    for n := 0 to |paths|
      invariant roles == KeepFirst(FolderReadings(parse, paths[..n], declared))
      invariant warnings == Complaints(FolderReadings(parse, paths[..n], declared))
    {
      FolderSnoc(parse, paths, n, declared);
      if paths[n] !in declared {
        var reading := Discovered(parse, paths[n]);
        KeepFirstSnoc(FolderReadings(parse, paths[..n], declared), reading);
        warnings := warnings + Complaint(roles, reading);
        roles := KeepStep(roles, reading);
      }
    }
    assert paths[..|paths|] == paths;
  }

  function Readings(parse: Parser, agents: Agents): seq<Result<(string, Role), string>> {
    if agents.Agents? then DeclaredReadings(parse, agents.declarations) else []
  }

  /** The roles of one layer: what it declares, then what its folder adds. */
  function LayerRoles(parse: Parser, layer: Layer): Result<Roles, string> {
    var declared := Readings(parse, layer.agents);
    match layer.folder
    case None => Ok(KeepFirst(declared))
    case Some(Err(e)) => Err(e)
    case Some(Ok(paths)) => Ok(KeepFirst(FolderReadings(parse, paths, DeclaredFiles(declared))) + KeepFirst(declared))
  }

  /** The warnings about what a layer declares. */
  function AgentsWarnings(parse: Parser, agents: Agents): seq<Warning> {
    match agents
    case NoAgents => []
    case Malformed(e) => [BadDefinition(e)]
    case Agents(ds) => Complaints(DeclaredReadings(parse, ds))
  }

  /** The warnings about a folder: its role files, then those whose name a declaration took. */
  ghost function FolderWarnings(parse: Parser, paths: seq<string>, declared: Roles, files: set<string>): seq<Warning> {
    var found := FolderReadings(parse, paths, files);
    Complaints(found) + Repeated(SortedStrings(declared.Keys * KeepFirst(found).Keys))
  }

  function Repeated(names: seq<string>): seq<Warning> {
    seq(|names|, i requires 0 <= i < |names| => Duplicate(names[i]))
  }

  ghost function LayerWarnings(parse: Parser, layer: Layer): seq<Warning> {
    var declared := Readings(parse, layer.agents);
    AgentsWarnings(parse, layer.agents) +
    if layer.folder.Some? && layer.folder.value.Ok?
    then FolderWarnings(parse, layer.folder.value.value, KeepFirst(declared), DeclaredFiles(declared)) else []
  }

  method ReadAgents(parse: Parser, agents: Agents) returns (roles: Roles, files: set<string>, warnings: seq<Warning>)
    ensures roles == KeepFirst(Readings(parse, agents)) && files == DeclaredFiles(Readings(parse, agents))
    ensures warnings == AgentsWarnings(parse, agents)
  {
    match agents
    case NoAgents => roles, files, warnings := map[], {}, [];
    case Malformed(e) => roles, files, warnings := map[], {}, [BadDefinition(e)];
    case Agents(ds) => roles, files, warnings := DeclaredRoles(parse, ds);
  }

  method ReadFolder(parse: Parser, paths: seq<string>, declared: Roles, files: set<string>) returns (roles: Roles, warnings: seq<Warning>)
    ensures roles == KeepFirst(FolderReadings(parse, paths, files)) + declared
    ensures warnings == FolderWarnings(parse, paths, declared, files)
  {
    var found, unread := DiscoverRoles(parse, paths, files);
    roles, warnings := AddDiscovered(declared, found);
    warnings := unread + warnings;
  }

  method ReadLayer(parse: Parser, layer: Layer) returns (r: Result<Roles, string>, warnings: seq<Warning>)
    ensures r == LayerRoles(parse, layer)
    ensures warnings == LayerWarnings(parse, layer)
  {
    var roles, files, declaredWarnings := ReadAgents(parse, layer.agents);
    match layer.folder
    case None =>
      r, warnings := Ok(roles), declaredWarnings;
    case Some(Err(e)) =>
      r, warnings := Err(e), declaredWarnings;
    case Some(Ok(paths)) =>
      var all, folderWarnings := ReadFolder(parse, paths, roles, files);
      r, warnings := Ok(all), declaredWarnings + folderWarnings;
  }

  /** Add the named roles of `found`, one by one, unless their name is taken. */
  function AddNames(declared: Roles, found: Roles, names: seq<string>): Roles {
    if names == [] then declared
    else
      var n := |names| - 1;
      var roles := AddNames(declared, found, names[..n]);
      if names[n] in roles || names[n] !in found then roles else roles[names[n] := found[names[n]]]
  }

  lemma {:induction false} AddNamesIs(declared: Roles, found: Roles, names: seq<string>)
    ensures var roles := AddNames(declared, found, names);
            && (forall name :: name in roles <==> name in declared || (name in found && name in names))
            && (forall name :: name in roles ==> roles[name] == if name in declared then declared[name] else found[name])
  {
    if names != [] {
      var n := |names| - 1;
      AddNamesIs(declared, found, names[..n]);
      assert names == names[..n] + [names[n]];
    }
  }

  lemma AddAllNames(declared: Roles, found: Roles, names: seq<string>)
    requires Elements(names) == found.Keys
    ensures AddNames(declared, found, names) == found + declared
  {
    AddNamesIs(declared, found, names);
    assert forall name :: name in names <==> name in Elements(names);
  }

  lemma AddOneName(declared: Roles, found: Roles, names: seq<string>, k: nat)
    requires k < |names| && Elements(names) == found.Keys
    ensures names[k] in found
    ensures NoDuplicates(names) ==> (names[k] in AddNames(declared, found, names[..k]) <==> names[k] in declared)
    ensures var roles := AddNames(declared, found, names[..k]);
            AddNames(declared, found, names[..k + 1]) == if names[k] in roles then roles else roles[names[k] := found[names[k]]]
  {
    assert names[k] in Elements(names);
    assert names[..k + 1][..k] == names[..k];
    AddNamesIs(declared, found, names[..k]);
  }

  /** The warnings about the names that are already declared. */
  function TakenWarnings(declared: Roles, names: seq<string>): seq<Warning> {
    Repeated(Filter(name => name in declared, names))
  }

  lemma NextTaken(declared: Roles, names: seq<string>, k: nat)
    requires k < |names|
    ensures TakenWarnings(declared, names[..k + 1]) == TakenWarnings(declared, names[..k]) + if names[k] in declared then [Duplicate(names[k])] else []
  {
    FilterNext(name => name in declared, names, k);
  }

  lemma AddNext(declared: Roles, found: Roles, names: seq<string>, k: nat)
    requires k < |names| && NoDuplicates(names) && Elements(names) == found.Keys
    ensures names[k] in found
    ensures var roles, warnings := AddNames(declared, found, names[..k]), TakenWarnings(declared, names[..k]);
            if names[k] in roles
            then AddNames(declared, found, names[..k + 1]) == roles && TakenWarnings(declared, names[..k + 1]) == warnings + [Duplicate(names[k])]
            else AddNames(declared, found, names[..k + 1]) == roles[names[k] := found[names[k]]] && TakenWarnings(declared, names[..k + 1]) == warnings
  {
    AddOneName(declared, found, names, k);
    NextTaken(declared, names, k);
  }

  lemma AllTaken(declared: Roles, found: Roles, names: seq<string>)
    requires names == SortedStrings(found.Keys)
    ensures TakenWarnings(declared, names) == Repeated(SortedStrings(declared.Keys * found.Keys))
  {
    StringOrders();
    FilterSorted(StringLe, found.Keys, name => name in declared, declared.Keys * found.Keys);
  }

  /** Roles found in the folder join the declared ones unless their name is taken. */
  method AddDiscovered(declared: Roles, found: Roles) returns (roles: Roles, warnings: seq<Warning>)
    ensures roles == found + declared
    ensures warnings == Repeated(SortedStrings(declared.Keys * found.Keys))
  {
    roles, warnings := declared, [];
    var names := ListStrings(found.Keys);
    for k := 0 to |names|
      invariant roles == AddNames(declared, found, names[..k])
      invariant warnings == TakenWarnings(declared, names[..k])
    {
      AddNext(declared, found, names, k);
      if names[k] in roles {
        warnings := warnings + [Duplicate(names[k])];
      } else {
        roles := roles[names[k] := found[names[k]]];
      }
    }
    assert names[..|names|] == names;
    AddAllNames(declared, found, names);
    AllTaken(declared, found, names);
  }
}
