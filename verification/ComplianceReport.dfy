/**
 Reports of the MCP conformance harness: the full form that a run writes, the compact form that is kept
 as a baseline, and the identity under which a check is compared between two reports.

 A field that the reader takes from a dictionary is a `Value`; `None` stands for a value that
 is not the list or dictionary the reader looks into.
 */
module ComplianceReport {
  import opened Common
  import opened PyValues
  import opened Sorting

  const SCHEMA := 4
  const KIND := "mcp-conformance-regression-baseline-v1"
  const REPOSITORY := "modelcontextprotocol/conformance"
  const GIT_REF := "49103de6ed70804e940637bf3e9e29e4a3f54e64"
  const SHIPPING := "2025-06-18"
  const MODES: seq<string> := [SHIPPING, "2025-11-25", "2026-07-28"]
  const STDIO := "stdio"
  const HTTP := "official-http"
  const TRANSPORTS: seq<string> := [STDIO, HTTP]
  const OFFICIAL := "official"
  const HARNESS := "harness"
  const SOURCES: seq<string> := [OFFICIAL, HARNESS, "supplemental"]

  /** What the reader takes from elsewhere: the scenario catalog of each protocol version, and the
      characters that Unicode counts as decimal digits. */
  datatype Env = Env(catalog: string -> seq<string>, decimal: char -> bool)

  datatype Status = Pass | Fail | Skip

  datatype Identity = Identity(mode: string, transport: string, source: string, scenario: string, checkId: string)

  type Statuses = map<Identity, set<Status>>

  datatype Check = Check(source: Value, scenario: Value, name: Value, checkId: Value, status: Value, success: Value)

  datatype Case = Case(mode: Value, transport: Value, checks: Option<seq<Option<Check>>>)

  datatype Record = Record(mode: Value, transport: Value, source: Value, scenario: Value, checkId: Value)

  datatype Buckets = Buckets(passing: Option<seq<Option<Record>>>, failing: Option<seq<Option<Record>>>)

  datatype Official = Official(repository: Value, gitRef: Value, authenticated: Value, scenarios: Option<map<string, Value>>)

  datatype Report = Report(
    schemaVersion: Value,
    versionCheck: Option<Value>,
    modern: Value,
    official: Option<Official>,
    auth: Value,
    kind: Value,
    requiredModes: Value,
    transports: Value,
    checks: Option<Buckets>,
    cases: Option<seq<Option<Case>>>)

  /** `value in choices` for a choice of strings. */
  predicate OneOf(v: Value, choices: seq<string>) {
    v.Str? && v.s in choices
  }

  // ----- the identity of a check -----

  /** The place of the last `#`, or -1. */
  function LastHash(name: string): (k: int)
    ensures -1 <= k < |name|
  {
    if name == "" then -1
    else if name[|name| - 1] == '#' then |name| - 1
    else LastHash(name[..|name| - 1])
  }

  predicate Decimal(env: Env, s: string) {
    s != "" && forall i :: 0 <= i < |s| ==> env.decimal(s[i])
  }

  /** The name without the number that the upstream runner gives to a repeated observation. */
  function StableName(env: Env, name: string): string {
    var k := LastHash(name);
    if k > 0 && Decimal(env, name[k + 1..]) then name[..k] else name
  }

  datatype Identified = Unhashable | NotOne | One(id: Identity)

  predicate OptionalText(v: Value) {
    v.Null? || (v.Str? && v.s != "")
  }

  /** `_regression_check_identity`; looking up an unhashable source raises. */
  function IdentityOf(env: Env, mode: string, transport: string, check: Check): Identified {
    if !Hashable(check.source) then Unhashable
    else if !OneOf(check.source, SOURCES) || !check.name.Str? || check.name.s == ""
            || !OptionalText(check.scenario) || !OptionalText(check.checkId) then NotOne
    else One(Identity(mode, transport, check.source.s,
                      if check.scenario.Str? then check.scenario.s else "",
                      if check.checkId.Str? then check.checkId.s else StableName(env, check.name.s)))
  }

  lemma {:induction false} LastHashIsLast(stem: string, suffix: string)
    requires forall i :: 0 <= i < |suffix| ==> suffix[i] != '#'
    ensures LastHash(stem + "#" + suffix) == |stem|
  {
    var name := stem + "#" + suffix;
    if suffix != "" {
      var n := |suffix| - 1;
      assert name[..|name| - 1] == stem + "#" + suffix[..n];
      assert name[|name| - 1] == suffix[n];
      LastHashIsLast(stem, suffix[..n]);
    }
  }

  /** A numbered copy of a name is reduced to the name itself. */
  lemma NumberedName(env: Env, stem: string, number: string)
    requires !env.decimal('#') && Decimal(env, number) && stem != ""
    ensures StableName(env, stem + "#" + number) == stem
  {
    var name := stem + "#" + number;
    LastHashIsLast(stem, number);
    assert name[|stem| + 1..] == number && name[..|stem|] == stem;
  }

  function Numbered(check: Check, number: string): Check
    requires check.name.Str?
  {
    check.(name := Str(check.name.s + "#" + number))
  }

  /** Any two numbered copies of a check share an identity. The check itself shares it too, exactly
      unless it is identified by a name that already ends in a number: only one number
      is taken off. */
  lemma NumberedCopiesAgree(env: Env, mode: string, transport: string, check: Check, number: string, other: string)
    requires !env.decimal('#') && Decimal(env, number) && Decimal(env, other)
    requires check.name.Str? && check.name.s != ""
    ensures IdentityOf(env, mode, transport, Numbered(check, number)) == IdentityOf(env, mode, transport, Numbered(check, other))
    ensures IdentityOf(env, mode, transport, Numbered(check, number)) == IdentityOf(env, mode, transport, check) <==>
            !IdentityOf(env, mode, transport, check).One? || check.checkId.Str? || StableName(env, check.name.s) == check.name.s
  {
    NumberedName(env, check.name.s, number);
    NumberedName(env, check.name.s, other);
  }

  // ----- the order of identities -----

  function Key(id: Identity): seq<string> {
    [id.mode, id.transport, id.source, id.scenario, id.checkId]
  }

  lemma KeyIsInjective(a: Identity, b: Identity)
    requires Key(a) == Key(b)
    ensures a == b
  {
    assert forall i :: 0 <= i < 5 ==> Key(a)[i] == Key(b)[i];
    assert Key(a)[0] == a.mode && Key(a)[1] == a.transport && Key(a)[2] == a.source && Key(a)[3] == a.scenario && Key(a)[4] == a.checkId;
    assert Key(b)[0] == b.mode && Key(b)[1] == b.transport && Key(b)[2] == b.source && Key(b)[3] == b.scenario && Key(b)[4] == b.checkId;
  }

  const IdentityLe: (Identity, Identity) -> bool := (a: Identity, b: Identity) => StringsLe(Key(a), Key(b))

  lemma IdentityOrder()
    ensures TotalOrder(IdentityLe)
  {
    StringOrders();
    forall a, b | Key(a) == Key(b) ensures a == b {
      KeyIsInjective(a, b);
    }
    OrderByKey(StringsLe, Key, IdentityLe);
  }

  /** `sorted(...)` of identities. */
  ghost function Listed(ids: set<Identity>): seq<Identity> {
    IdentityOrder();
    SortedSet(IdentityLe, ids)
  }

  lemma ListedAre(ids: set<Identity>)
    ensures NoDuplicates(Listed(ids)) && Elements(Listed(ids)) == ids
    ensures Listed(ids) == [] <==> ids == {}
    ensures forall id :: id in Listed(ids) ==> id in ids
  {
    IdentityOrder();
    ElementsMean(Listed(ids), ids);
  }

  lemma FilterListed(ids: set<Identity>, p: Identity -> bool, chosen: set<Identity>)
    requires forall id :: id in chosen <==> id in ids && p(id)
    ensures Filter(p, Listed(ids)) == Listed(chosen)
  {
    IdentityOrder();
    FilterSorted(IdentityLe, ids, p, chosen);
  }

  method ListIdentities(ids: set<Identity>) returns (q: seq<Identity>)
    ensures q == Listed(ids)
  {
    IdentityOrder();
    q := ListSorted(IdentityLe, ids);
  }
}
