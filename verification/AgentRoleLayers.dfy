/** Merging the roles of configuration layers, and the closed form of the result. */
module AgentRoleLayers {
  import opened Common
  import opened Sorting
  import opened AgentRoles

  /** merge_missing_role_fields */
  function MergeMissing(role: Role, fallback: Role): Role {
    Role(role.description.Or(fallback.description), role.configFile.Or(fallback.configFile), role.nicknames.Or(fallback.nicknames))
  }

  function Merged(roles: Roles, layer: Roles, name: string): Role
    requires name in layer
  {
    if name in roles then MergeMissing(layer[name], roles[name]) else layer[name]
  }

  /** The roles after one more layer; a role without a description is left as it was. */
  function MergeLayer(roles: Roles, layer: Roles): Roles {
    roles + map name | name in layer && Merged(roles, layer, name).description.Some? :: Merged(roles, layer, name)
  }

  /** The loop over layers, lowest first. */
  function Fold(layers: seq<Roles>): Roles {
    if layers == [] then map[] else MergeLayer(Fold(layers[..|layers| - 1]), layers[|layers| - 1])
  }

  // ----- the closed form -----

  predicate Describes(layer: Roles, name: string) {
    name in layer && layer[name].description.Some?
  }

  predicate Described(layers: seq<Roles>, name: string) {
    exists i :: 0 <= i < |layers| && Describes(layers[i], name)
  }

  /** The lowest layer that describes a role. */
  function FirstDescribing(layers: seq<Roles>, name: string): (i: nat)
    requires Described(layers, name)
    ensures i < |layers| && Describes(layers[i], name) && !Described(layers[..i], name)
  {
    var n := |layers| - 1;
    if Described(layers[..n], name) then
      var i := FirstDescribing(layers[..n], name);
      assert layers[..n][..i] == layers[..i];
      i
    else n
  }

  /** The value of a field in the highest layer, from `from` up, that sets it. */
  function Highest<T>(layers: seq<Roles>, name: string, from: nat, field: Role -> Option<T>): Option<T> {
    if |layers| <= from then None
    else
      var n := |layers| - 1;
      if name in layers[n] && field(layers[n][name]).Some? then field(layers[n][name]) else Highest(layers[..n], name, from, field)
  }

  predicate Sets<T>(layer: Roles, name: string, field: Role -> Option<T>) {
    name in layer && field(layer[name]).Some?
  }

  /** `Highest` is what its name says. */
  lemma {:induction false} HighestIsHighest<T>(layers: seq<Roles>, name: string, from: nat, field: Role -> Option<T>)
    ensures var h := Highest(layers, name, from, field);
            && (h.None? <==> forall j :: from <= j < |layers| ==> !Sets(layers[j], name, field))
            && (h.Some? ==> exists j :: from <= j < |layers| && Sets(layers[j], name, field) && field(layers[j][name]) == h
                              && forall k :: j < k < |layers| ==> !Sets(layers[k], name, field))
  {
    if |layers| > from {
      var n := |layers| - 1;
      HighestIsHighest(layers[..n], name, from, field);
      assert forall j :: 0 <= j < n ==> layers[..n][j] == layers[j];
      if !Sets(layers[n], name, field) && Highest(layers[..n], name, from, field).Some? {
        var j :| from <= j < n && Sets(layers[..n][j], name, field) && field(layers[..n][j][name]) == Highest(layers[..n], name, from, field)
                 && forall k :: j < k < n ==> !Sets(layers[..n][k], name, field);
        forall k | j < k < |layers| ensures !Sets(layers[k], name, field) { if k < n { assert !Sets(layers[..n][k], name, field); } }
        assert Sets(layers[j], name, field);
      }
    }
  }

  function ClosedForm(layers: seq<Roles>, name: string): Role
    requires Described(layers, name)
  {
    var from := FirstDescribing(layers, name);
    Role(Highest(layers, name, from, (r: Role) => r.description),
         Highest(layers, name, from, (r: Role) => r.configFile),
         Highest(layers, name, from, (r: Role) => r.nicknames))
  }

  lemma DescribedSnoc(layers: seq<Roles>, name: string)
    requires layers != []
    ensures Described(layers, name) <==> Described(layers[..|layers| - 1], name) || Describes(layers[|layers| - 1], name)
  {
    var n := |layers| - 1;
    assert forall i :: 0 <= i < n ==> layers[..n][i] == layers[i];
  }

  lemma HighestSnoc<T>(layers: seq<Roles>, name: string, from: nat, field: Role -> Option<T>)
    requires from < |layers|
    ensures var n := |layers| - 1;
            Highest(layers, name, from, field) ==
              if name in layers[n] then field(layers[n][name]).Or(Highest(layers[..n], name, from, field)) else Highest(layers[..n], name, from, field)
  {
  }

  /** A role is loaded exactly when some layer describes it, and each of its fields is the one set by
      the highest layer at or above the lowest layer that describes it: what lower layers
      say is lost. */
  lemma {:induction false} FoldClosedForm(layers: seq<Roles>, name: string)
    ensures name in Fold(layers) <==> Described(layers, name)
    ensures name in Fold(layers) ==> Fold(layers)[name] == ClosedForm(layers, name) && Fold(layers)[name].description.Some?
  {
    if layers != [] {
      var n := |layers| - 1;
      FoldClosedForm(layers[..n], name);
      DescribedSnoc(layers, name);
      if Described(layers[..n], name) {
        ClosedFormGrows(layers, name);
      } else if Describes(layers[n], name) {
        ClosedFormStarts(layers, name);
      }
    }
  }

  lemma ClosedFormGrows(layers: seq<Roles>, name: string)
    requires layers != [] && Described(layers[..|layers| - 1], name) && Described(layers, name)
    ensures var n := |layers| - 1;
            ClosedForm(layers, name) ==
              if name in layers[n] then MergeMissing(layers[n][name], ClosedForm(layers[..n], name)) else ClosedForm(layers[..n], name)
  {
    var from := FirstDescribing(layers, name);
    HighestSnoc(layers, name, from, (r: Role) => r.description);
    HighestSnoc(layers, name, from, (r: Role) => r.configFile);
    HighestSnoc(layers, name, from, (r: Role) => r.nicknames);
  }

  lemma ClosedFormStarts(layers: seq<Roles>, name: string)
    requires layers != [] && !Described(layers[..|layers| - 1], name) && Described(layers, name) && name in layers[|layers| - 1]
    ensures ClosedForm(layers, name) == layers[|layers| - 1][name]
  {
    var n := |layers| - 1;
    HighestSnoc(layers, name, n, (r: Role) => r.description);
    HighestSnoc(layers, name, n, (r: Role) => r.configFile);
    HighestSnoc(layers, name, n, (r: Role) => r.nicknames);
  }

  // ----- the loops -----

  /** A layer mentions a role that no layer so far describes. */
  predicate Undescribed(layers: seq<Roles>, i: nat, name: string) {
    i < |layers| && name in layers[i] && !Described(layers[..i + 1], name)
  }

  /** Merge the named roles of a layer one after another. */
  function MergeNames(roles: Roles, layer: Roles, names: seq<string>): Roles {
    if names == [] then roles
    else
      var n := |names| - 1;
      var before := MergeNames(roles, layer, names[..n]);
      if names[n] in layer && Merged(before, layer, names[n]).description.Some?
      then before[names[n] := Merged(before, layer, names[n])] else before
  }

  lemma {:induction false} MergeNamesIs(roles: Roles, layer: Roles, names: seq<string>)
    requires NoDuplicates(names)
    ensures var result := MergeNames(roles, layer, names);
            && (forall name :: name !in names ==> (name in result <==> name in roles) && (name in roles ==> result[name] == roles[name]))
            && (forall name :: name in names && name in layer ==>
                  (name in result <==> name in MergeLayer(roles, layer)) && (name in result ==> result[name] == MergeLayer(roles, layer)[name]))
            && (forall name :: name in names && name !in layer ==> (name in result <==> name in roles) && (name in roles ==> result[name] == roles[name]))
  {
    if names != [] {
      var n := |names| - 1;
      MergeNamesIs(roles, layer, names[..n]);
      assert names == names[..n] + [names[n]];
      assert names[n] !in names[..n];
    }
  }

  lemma MergeAllNames(roles: Roles, layer: Roles, names: seq<string>)
    requires NoDuplicates(names) && Elements(names) == layer.Keys
    ensures MergeNames(roles, layer, names) == MergeLayer(roles, layer)
  {
    MergeNamesIs(roles, layer, names);
    assert forall name :: name in names <==> name in Elements(names);
  }

  /** The names of a layer that it leaves without a description, given the roles so far. */
  ghost predicate LeftOut(roles: Roles, layer: Roles, name: string) {
    name in layer && Merged(roles, layer, name).description.None?
  }

  ghost function LeftOutSet(roles: Roles, layer: Roles): set<string> {
    set name | name in layer && LeftOut(roles, layer, name)
  }

  /** Those of the names that are left out, in order. */
  ghost function LeftOutAmong(roles: Roles, layer: Roles, names: seq<string>): seq<string> {
    Filter(name => LeftOut(roles, layer, name), names)
  }

  lemma NextLeftOut(roles: Roles, layer: Roles, names: seq<string>, k: nat)
    requires k < |names|
    ensures LeftOutAmong(roles, layer, names[..k + 1]) ==
              LeftOutAmong(roles, layer, names[..k]) + if LeftOut(roles, layer, names[k]) then [names[k]] else []
  {
    FilterNext(name => LeftOut(roles, layer, name), names, k);
  }

  lemma AllLeftOut(roles: Roles, layer: Roles, names: seq<string>)
    requires names == SortedStrings(layer.Keys)
    ensures LeftOutAmong(roles, layer, names) == SortedStrings(LeftOutSet(roles, layer))
  {
    StringOrders();
    FilterSorted(StringLe, layer.Keys, name => LeftOut(roles, layer, name), LeftOutSet(roles, layer));
  }

  /** The inner loop of load_agent_roles. */
  method MergeOneLayer(roles: Roles, layer: Roles) returns (merged: Roles, leftOut: seq<string>)
    ensures merged == MergeLayer(roles, layer)
    ensures leftOut == SortedStrings(LeftOutSet(roles, layer))
  {
    merged, leftOut := roles, [];
    var names := ListStrings(layer.Keys);
    for k := 0 to |names|
      invariant merged == MergeNames(roles, layer, names[..k])
      invariant leftOut == LeftOutAmong(roles, layer, names[..k])
    {
      NextName(roles, layer, names, k);
      NextLeftOut(roles, layer, names, k);
      var name := names[k];
      var role := layer[name];
      if name in merged {
        role := MergeMissing(role, merged[name]);
      }
      if role.description.None? {
        leftOut := leftOut + [name];
      } else {
        merged := merged[name := role];
      }
    }
    assert names[..|names|] == names;
    MergeAllNames(roles, layer, names);
    AllLeftOut(roles, layer, names);
  }

  lemma NextName(roles: Roles, layer: Roles, names: seq<string>, k: nat)
    requires NoDuplicates(names) && Elements(names) == layer.Keys && k < |names|
    ensures names[k] in layer && names[k] !in Elements(names[..k])
    ensures Elements(names[..k + 1]) == Elements(names[..k]) + {names[k]}
    ensures var before := MergeNames(roles, layer, names[..k]);
            && Merged(before, layer, names[k]) == Merged(roles, layer, names[k])
            && MergeNames(roles, layer, names[..k + 1]) ==
                 if LeftOut(roles, layer, names[k]) then before else before[names[k] := Merged(roles, layer, names[k])]
  {
    assert names[k] in Elements(names);
    assert names[..k + 1] == names[..k] + [names[k]];
    assert names[..k + 1][..k] == names[..k];
    MergeNamesIs(roles, layer, names[..k]);
  }

  lemma LeftOutIsUndescribed(layers: seq<Roles>, i: nat, name: string)
    requires i < |layers|
    ensures LeftOut(Fold(layers[..i]), layers[i], name) <==> Undescribed(layers, i, name)
  {
    FoldClosedForm(layers[..i], name);
    assert layers[..i + 1][..i] == layers[..i];
    DescribedSnoc(layers[..i + 1], name);
  }

  /** The roles of a layer that neither it nor a lower layer describes. */
  ghost function UndescribedNames(layers: seq<Roles>, i: nat): set<string>
    requires i < |layers|
  {
    set name | name in layers[i] && Undescribed(layers, i, name)
  }

  lemma LeftOutSetIs(layers: seq<Roles>, i: nat)
    requires i < |layers|
    ensures LeftOutSet(Fold(layers[..i]), layers[i]) == UndescribedNames(layers, i)
  {
    forall name ensures name in LeftOutSet(Fold(layers[..i]), layers[i]) <==> name in UndescribedNames(layers, i) {
      LeftOutIsUndescribed(layers, i, name);
    }
  }

  // ----- the whole load -----

  /** All layers can be read: no folder listing failed. */
  predicate Readable(parse: Parser, layers: seq<Layer>) {
    forall i :: 0 <= i < |layers| ==> LayerRoles(parse, layers[i]).Ok?
  }

  function AllLayerRoles(parse: Parser, layers: seq<Layer>): (r: seq<Roles>)
    requires Readable(parse, layers)
    ensures |r| == |layers|
  {
    seq(|layers|, i requires 0 <= i < |layers| => LayerRoles(parse, layers[i]).value)
  }

  function Missing(names: seq<string>): seq<Warning> {
    seq(|names|, i requires 0 <= i < |names| => NoDescription(names[i]))
  }

  /** The description warnings of the last layer: its undescribed roles by name, none if it cannot be read. */
  ghost function DescriptionWarnings(parse: Parser, layers: seq<Layer>): seq<Warning>
    requires layers != []
  {
    if Readable(parse, layers) then Missing(SortedStrings(UndescribedNames(AllLayerRoles(parse, layers), |layers| - 1))) else []
  }

  /** The warnings of the layers in order, up to the first whose folder cannot be listed: for each layer those about its
      definitions, and then those about descriptions. */
  ghost function LayersWarnings(parse: Parser, layers: seq<Layer>): seq<Warning> {
    if layers == [] then []
    else
      var n := |layers| - 1;
      LayersWarnings(parse, layers[..n]) +
      if Readable(parse, layers[..n]) then LayerWarnings(parse, layers[n]) + DescriptionWarnings(parse, layers) else []
  }

  lemma {:induction false} NoWarningsAfter(parse: Parser, layers: seq<Layer>, i: nat)
    requires i <= |layers| && !Readable(parse, layers[..i])
    ensures LayersWarnings(parse, layers) == LayersWarnings(parse, layers[..i])
  {
    if i == |layers| {
      assert layers[..i] == layers;
    } else {
      var before := layers[..|layers| - 1];
      assert before[..i] == layers[..i];
      NoWarningsAfter(parse, before, i);
      UnreadableStays(parse, before, i);
      assert LayersWarnings(parse, layers) == LayersWarnings(parse, before) + [];
    }
  }

  lemma {:induction false} LayerWarnsNext(parse: Parser, layers: seq<Layer>, i: nat)
    requires i < |layers| && Readable(parse, layers[..i])
    ensures LayersWarnings(parse, layers[..i + 1]) ==
              LayersWarnings(parse, layers[..i]) + (LayerWarnings(parse, layers[i]) + DescriptionWarnings(parse, layers[..i + 1]))
    ensures LayerRoles(parse, layers[i]).Err? ==> DescriptionWarnings(parse, layers[..i + 1]) == []
    ensures LayerRoles(parse, layers[i]).Err? ==> LayersWarnings(parse, layers) == LayersWarnings(parse, layers[..i + 1])
  {
    var next := layers[..i + 1];
    assert next[..i] == layers[..i] && next[i] == layers[i];
    if LayerRoles(parse, layers[i]).Err? {
      NoWarningsAfter(parse, layers, i + 1);
    }
  }

  lemma {:induction false} UnreadableStays(parse: Parser, layers: seq<Layer>, i: nat)
    requires i <= |layers| && !Readable(parse, layers[..i])
    ensures !Readable(parse, layers)
  {
    var k :| 0 <= k < i && LayerRoles(parse, layers[..i][k]).Err?;
    assert layers[k] == layers[..i][k];
  }

  /** The error of the first layer whose folder cannot be listed. */
  ghost predicate FailsAtLayer(parse: Parser, layers: seq<Layer>, i: nat, error: string) {
    i < |layers| && Readable(parse, layers[..i]) && LayerRoles(parse, layers[i]) == Err(error)
  }

  /** The loop of load_agent_roles over the layers: it fails only if a folder cannot be listed, with the error of the
      first such layer; otherwise the roles are the fold of the layers, of which FoldClosedForm gives the meaning. */
  method LoadLayers(parse: Parser, layers: seq<Layer>) returns (r: Result<Roles, string>, warnings: seq<Warning>)
    ensures r.Ok? <==> Readable(parse, layers)
    ensures r.Ok? ==> r.value == Fold(AllLayerRoles(parse, layers))
    ensures r.Err? ==> exists i :: FailsAtLayer(parse, layers, i, r.error)
    ensures warnings == LayersWarnings(parse, layers)
  {
    var roles: Roles := map[];
    warnings := [];
    for i := 0 to |layers|
      invariant Readable(parse, layers[..i])
      invariant roles == Fold(AllLayerRoles(parse, layers[..i]))
      invariant warnings == LayersWarnings(parse, layers[..i])
    {
      var layer, found := ReadLayer(parse, layers[i]);
      LayerWarnsNext(parse, layers, i);
      if layer.Err? {
        assert FailsAtLayer(parse, layers, i, layer.error);
        return Err(layer.error), warnings + found;
      }
      var merged, leftOut := MergeOneLayer(roles, layer.value);
      OneMoreLayer(parse, layers, i);
      roles := merged;
      warnings := warnings + (found + Missing(leftOut));
    }
    assert layers[..|layers|] == layers;
    r := Ok(roles);
  }

  lemma {:induction false} OneMoreLayer(parse: Parser, layers: seq<Layer>, i: nat)
    requires i < |layers| && Readable(parse, layers[..i]) && LayerRoles(parse, layers[i]).Ok?
    ensures Readable(parse, layers[..i + 1])
    ensures var before, layer := Fold(AllLayerRoles(parse, layers[..i])), LayerRoles(parse, layers[i]).value;
            && Fold(AllLayerRoles(parse, layers[..i + 1])) == MergeLayer(before, layer)
            && DescriptionWarnings(parse, layers[..i + 1]) == Missing(SortedStrings(LeftOutSet(before, layer)))
  {
    RolesGrow(parse, layers, i);
    LeftOutSetIs(AllLayerRoles(parse, layers[..i + 1]), i);
  }

  lemma {:induction false} RolesGrow(parse: Parser, layers: seq<Layer>, i: nat)
    requires i < |layers| && Readable(parse, layers[..i]) && LayerRoles(parse, layers[i]).Ok?
    ensures Readable(parse, layers[..i + 1])
    ensures var all := AllLayerRoles(parse, layers[..i + 1]);
            all[..i] == AllLayerRoles(parse, layers[..i]) && all[i] == LayerRoles(parse, layers[i]).value
  {
    assert forall j :: 0 <= j < i ==> layers[..i + 1][j] == layers[..i][j];
  }

  // ----- without layers -----

  ghost predicate StrictlyGood(readings: seq<Result<(string, Role), string>>) {
    && (forall i :: 0 <= i < |readings| ==> readings[i].Ok? && readings[i].value.1.description.Some?)
    && (forall i, j :: 0 <= i < j < |readings| && readings[i].Ok? && readings[j].Ok? ==> readings[i].value.0 != readings[j].value.0)
  }

  function MissingDescription(name: string): string {
    "agent role `" + name + "` must define a description"
  }

  function DuplicateName(name: string): string {
    "duplicate agent role name `" + name + "` declared in config"
  }

  /** The first declaration that is not strictly good, and its error: that of reading it, or else a missing description, or
      else a name that was read before. */
  ghost predicate FailsAt(readings: seq<Result<(string, Role), string>>, n: nat, error: string) {
    && n < |readings| && StrictlyGood(readings[..n])
    && match readings[n] {
        case Err(e) => error == e
        case Ok((name, role)) =>
          if role.description.None? then error == MissingDescription(name)
          else ReadBefore(readings, n, name) && error == DuplicateName(name)
      }
  }

  /** load_agent_roles_without_layers: the first problem is the error. When there is none, the result
      is what a single layer with the same declarations would give. */
  method LoadWithoutLayers(parse: Parser, ds: seq<Declaration>) returns (r: Result<Roles, string>)
    ensures r.Ok? <==> StrictlyGood(DeclaredReadings(parse, ds))
    ensures r.Ok? ==> r.value == Fold([KeepFirst(DeclaredReadings(parse, ds))])
    ensures r.Err? ==> exists n :: FailsAt(DeclaredReadings(parse, ds), n, r.error)
  {
    var roles: Roles := map[];
    ghost var all := DeclaredReadings(parse, ds);
    DeclaredAt(parse, ds);
    for n := 0 to |ds|
      invariant roles == KeepFirst(all[..n]) && StrictlyGood(all[..n])
    {
      var reading := ReadDeclared(parse, ds[n]);
      StrictStep(all, n);
      if reading.Err? {
        assert FailsAt(all, n, reading.error);
        return Err(reading.error);
      }
      var (name, role) := reading.value;
      if role.description.None? {
        assert FailsAt(all, n, MissingDescription(name));
        return Err(MissingDescription(name));
      }
      if name in roles {
        assert FailsAt(all, n, DuplicateName(name));
        return Err(DuplicateName(name));
      }
      roles := roles[name := role];
    }
    assert all[..|all|] == all;
    SingleLayer(all);
    r := Ok(roles);
  }

  lemma {:induction false} DeclaredAt(parse: Parser, ds: seq<Declaration>)
    ensures |DeclaredReadings(parse, ds)| == |ds|
    ensures forall i :: 0 <= i < |ds| ==> DeclaredReadings(parse, ds)[i] == ReadDeclared(parse, ds[i])
  {
    if ds != [] { DeclaredAt(parse, ds[..|ds| - 1]); }
  }

  lemma StrictStep(all: seq<Result<(string, Role), string>>, n: nat)
    requires n < |all| && StrictlyGood(all[..n])
    ensures KeepFirst(all[..n + 1]) == KeepStep(KeepFirst(all[..n]), all[n])
    ensures var good := all[n].Ok? && all[n].value.1.description.Some? && all[n].value.0 !in KeepFirst(all[..n]);
            if good then StrictlyGood(all[..n + 1]) else !StrictlyGood(all)
    ensures all[n].Ok? ==> (all[n].value.0 in KeepFirst(all[..n]) <==> ReadBefore(all, n, all[n].value.0))
  {
    assert all[..n + 1] == all[..n] + [all[n]];
    KeepFirstSnoc(all[..n], all[n]);
    KeepFirstHolds(all[..n]);
    if all[n].Ok? {
      var name := all[n].value.0;
      EarlierSame(all[..n], all, n, name);
      if name in KeepFirst(all[..n]) {
        assert ReadBefore(all[..n], n, name);
        var j :| 0 <= j < n && all[..n][j].Ok? && all[..n][j].value.0 == name;
        assert all[j].value.0 == all[n].value.0;
      } else {
        assert !ReadBefore(all[..n], n, name);
      }
    }
  }

  lemma SingleLayer(all: seq<Result<(string, Role), string>>)
    requires StrictlyGood(all)
    ensures Fold([KeepFirst(all)]) == KeepFirst(all)
  {
    var roles := KeepFirst(all);
    KeepFirstHolds(all);
    forall name | name in roles ensures roles[name].description.Some? {
      assert FirstReading(all, name, roles[name]);
    }
    assert [roles][..0] == [];
    assert Fold([roles]) == MergeLayer(map[], roles);
  }
}
